# Scope tracking for the C11 parser's lexer feedback

A C parser cannot tell whether an identifier is a type name or an ordinary
name from the grammar alone. This parser keeps a side channel: a scope
model that the grammar's reductions update and that the tokenizer queries
before it classifies each identifier. This project models that scope model
and the declarators that drive it, and proves what they promise.

- `ScopeContext` (context.dfy) models struct `Context`. It is a class with
  one field `current`: the set of spellings that currently denote typedef
  names. It has the membership query, the two declaring operations, and
  whole-set snapshot and restore. Block scoping is snapshot, then
  declarations, then restore. No stack of scopes is kept. The value-level
  specification is `Declare` and `DeclareAll`, with lemmas on what a
  sequence of declarations does to each spelling.
- `Declarators` (declarator.dfy) models the three-way `declarator` variant
  as a datatype. Every shape carries the declared identifier. A function
  declarator also owns a copy of a scope. The converting constructors of
  `function_declarator` and `other_declarator` are the functions
  `FunctionOf` and `OtherOf`. `reinstall_function_context` is a method on
  the datatype that mutates a `Context`. It implements the rule of
  ISO/IEC 9899:2011, section 6.2.1, paragraph 4, that parameters are in
  scope in the function body. Inside the body the function's own name is
  an ordinary name.
- `Scenarios` (scenarios.dfy) replays two parses from the parser's test
  suite as sequences of calls on a fresh `Context`, and proves each
  classification those tests rely on. The grammar is not part of the
  model. Each call stands where its reduction fires. A parameter list's
  captured scope is taken as the scope at the end of that list.

The source declares the snapshot type as `context` in context.h:36.
declarator.h:55 refers to it as `Context::State`. Both are the type
`ScopeContext.State`, a `set<string>`.

A function declarator keeps the scope captured at its innermost parameter
list only while every wrapping is a function wrapping. `other_declarator`
keeps only the identifier (declarator.h:105-112). A `function_declarator`
built around an "other" shape therefore gets an empty, default-constructed
scope (declarator.h:98-100). `SnapshotCarried` states both cases. In
`Scenarios.FunctionReturningFunctionPointer` the function returns a
function pointer, so its declarator reinstalls the empty scope.

## Model

| member | source | states |
|---|---|---|
| ScopeContext.Declare | src/declarator/context.h:44-50 | after one declaration the spelling is a typedef name exactly when it was declared as one, and every other spelling keeps its classification |
| ScopeContext.DeclareIdempotent | src/declarator/context.h:44-50 | inserting or erasing the same spelling twice equals doing it once |
| ScopeContext.DeclareAllUntouched | src/declarator/context.h:44-50 | a spelling no declaration in a sequence names keeps its classification across the sequence |
| ScopeContext.DeclareAllLastWins | src/declarator/context.h:44-50 | after a sequence of declarations, a spelling's classification is decided by the last declaration naming it |
| ScopeContext.Context.constructor | src/declarator/context.h:35-38 | a new scope holds no typedef names |
| ScopeContext.Context.IsTypedefName | src/declarator/context.h:40-42 | answers true exactly when the spelling is in `current`, and changes nothing |
| ScopeContext.Context.DeclareTypedefName | src/declarator/context.h:44-46 | `current` becomes the old set with the spelling inserted, membership of every other spelling unchanged |
| ScopeContext.Context.DeclareVarName | src/declarator/context.h:48-50 | `current` becomes the old set with the spelling erased, a no-op when it was absent, others unchanged |
| ScopeContext.Context.SaveContext | src/declarator/context.h:52-54 | returns a value equal to `current` and leaves `current` untouched |
| ScopeContext.Context.RestoreContext | src/declarator/context.h:56-58 | `current` equals the given snapshot, whatever it held before |
| ScopeContext.Context.DeclareEach | src/declarator/context.h:44-50 | applying the declaring operations in order leaves `current` equal to `DeclareAll` of the old set |
| ScopeContext.Context.Block | src/declarator/context.h:36-58 | nesting law: snapshot, any declarations, restore leaves `current` as it was at the snapshot, and the snapshot is a copy unaffected by the declarations in between |
| Declarators.Declarator.Identifier | src/declarator/declarator.h:69-76 | each of the three shapes returns its stored identifier |
| Declarators.Declarator.ReinstalledScope | src/declarator/declarator.h:78-84 | for a function declarator, the body's scope is its captured scope with its own name made ordinary, independent of the live scope; any other shape leaves the live scope as it is |
| Declarators.Declarator.ReinstallFunctionContext | src/declarator/declarator.h:78-84 | restore then erase: the live `Context` ends equal to `ReinstalledScope` of its old value |
| Declarators.FunctionOf | src/declarator/declarator.h:88-103 | always a function declarator with the same identifier; around an identifier it captures the caller's scope, around a function declarator it is that declarator unchanged, around any other shape its scope is empty |
| Declarators.OtherOf | src/declarator/declarator.h:105-112 | always an other declarator with exactly the wrapped declarator's identifier |
| Declarators.NamePropagation | src/declarator/declarator.h:88-112 | any chain of function and other wrappings has the identifier of the declarator it wraps |
| Declarators.SnapshotCarried | src/declarator/declarator.h:88-112 | the outermost function declarator around an identifier carries the innermost parameter list's scope when all wrappings are function wrappings, and the empty scope otherwise |
| Declarators.FunctionScopeReentry | src/declarator/declarator.h:78-103 | after reinstalling a function declarator built from identifier x by function wrappings only, x is not a typedef name even if it was one in the captured scope, and every other spelling is classified as at the innermost parameter list |
| Declarators.ReinstallIgnoresLiveScope | src/declarator/declarator.h:78-84 | for a function declarator, the body's scope is the same whatever the live scope held before |
| Scenarios.LocalScope | src/parser/c11parser.gtest.cpp:914-938 | a typedef name hidden by a variable in an inner block is a type before the block, a variable inside it and a type again after it |
| Scenarios.FunctionReturningFunctionPointer | src/parser/c11parser.gtest.cpp:857-879 | a parameter named like a typedef name makes it a variable in later parameters, and the returned function's parameter list still sees the typedef name. The body scope is empty because the pointer declarator drops the captured scope, so every typedef name is dropped, file-scope ones included; the test's expectation that the names are variables holds for that reason |

## Left out

- The tokenizer (src/lexer/c11parser_lexer.h) is not part of this model. Its `yylex` body is generated by flex from rules that are not available. This covers the split NAME-then-classification token protocol, the `_Atomic` parenthesis disambiguation and the configuration flags.
- The grammar's reductions are not part of this model. Each scenario places a call where its reduction would fire; which scope the grammar passes to `function_declarator` is not fixed by the core.
- The source never re-asserts parameter names as ordinary names after the restore in `reinstall_function_context`, and neither does the model.
- `unordered_set` hashing and iteration order are not modelled; the snapshot type is a mathematical set.
- Declarators.Declarator.ReinstallFunctionContext: the source's member is non-const and takes the variant by reference. The model's declarator is an immutable value, so "the declarator itself is unchanged" holds by construction rather than being stated in a contract.
- Input streams, flex I/O and debug flags are not modelled.
