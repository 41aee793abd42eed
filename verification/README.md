# dp4a routine registry — a Dafny model

dp4a lets a program declare *routines* inside a `routines!` block: named functions
with a mandatory return type, written with `rt` instead of `fn`, optionally `pub`.
The block expands into caller stubs, one callback per routine in a private
`callbacks` module, and a dispatch function `__routines::handle(name)`.
`handle` tests the name against every routine in declaration order, by exact
string equality. On the first match it runs that routine's callback, drops its
value and returns `Ok(())`. When nothing matches it returns
`Err("routine with name \"<name>\" not found")`.

The model has four modules:

- `Wrappers` (`wrappers.dfy`): `Option` and `Result`.
- `Declarations` (`declarations.dfy`): the declaration shape the helper macros
  accept. It is a parser from an abstract token stream to `RoutineDecl` values,
  with the renderer it inverts. The parser reports failure when no macro arm
  matches.
- `Dispatch` (`dispatch.dfy`): the `if` chain that `__make_ifs!` builds and the
  `handle` function that runs it. Both a functional and a statement-by-statement
  version are given.
- `Routines` (`routines.dfy`): the `routines!` macro as a whole. It decides
  whether a block is accepted by the macros' patterns and free of argument and
  duplicate faults, and holds the repository's unit test. Type checking, name
  resolution and rustc's macro recursion limit are not modelled, so an accepted
  block may still fail to expand or compile.

Tokens are abstracted as follows. A whole type is one `Ty` token. A brace block
is one `Block` token whose body is an opaque number. `rt` is an ordinary
identifier token, as it is to Rust.

Points where the code decides something the documentation does not say:

- The documentation's examples `rt private_routine -> &'static str { ... }`
  (src/lib.rs:75) and `rt no_return_routine_explicit -> () { }` (src/lib.rs:86),
  the second called "allowed, but strongly discouraged", have no parentheses.
  Every macro arm requires them, so the code refuses both declarations
  (`MissingParensRejected`, with return type `()` for the second). The
  erroneous example `rt no_return_routine { }` (src/lib.rs:82) lacks both the
  parentheses and the return type, and is refused too
  (`NoReturnRoutineRejected`).
- `routines!` never checks for an empty block or repeated names; the compiler
  refuses both. The macro matches its tokens with a zero-or-more repetition but
  expands them with a one-or-more repetition, so an empty `routines! {}` does not
  expand (`Expand` gives `EmptyInvocation`). Two routines with the same name
  define the same `pub fn` twice in `callbacks`, so that does not compile either
  (`DuplicateRoutine`). The `__make_ifs!` base case with no tests is still
  modelled (`EmptyRegistryNotFound`).
- A routine with arguments does not compile. The stub and callback templates
  paste `:ty` after every argument type (see Findings), and `handle` calls every
  callback with no arguments (src/lib.rs:41, src/lib.rs:49). `Expand` gives
  `ArgumentsRejected`.

## Model

| member | source | states |
|---|---|---|
| Declarations.ParsedParamsAreRendered | src/lib.rs:39 | an accepted argument list is exactly `name: type` items separated by commas, with no trailing comma |
| Declarations.ParseRenderParams | src/lib.rs:47 | every argument list is accepted back as itself |
| Declarations.ParsedDeclIsRendered | src/lib.rs:5-16 | one arm accepts exactly `[pub] rt name(args) -> type {block}` at the front and leaves the remaining tokens as the tail |
| Declarations.ParseRenderDecl | src/lib.rs:22-32 | every declaration, `pub` or not, is accepted by its arm whatever tokens follow it |
| Declarations.ParseDeclsAppend | src/lib.rs:24-34 | a block of well-shaped declarations followed by more tokens is accepted exactly when the rest is, and the routines are concatenated in order |
| Declarations.ParsedIsRendered | src/lib.rs:37-56 | whatever token list the recursion accepts is exactly the rendering of the routines it yields |
| Declarations.ParseRenderDecls | src/lib.rs:5-19 | every list of declarations, including the empty one, round-trips through render and parse |
| Declarations.MissingReturnTypeRejected | src/lib.rs:64-65 | a declaration without `-> type`, anywhere in a block, makes the whole block match no arm |
| Declarations.MissingParensRejected | src/lib.rs:73-87 | a declaration without its parenthesised argument list, anywhere in a block, makes the block match no arm; this includes both documented examples, the second with return type `()` |
| Dispatch.IfChain | src/lib.rs:37-56 | `__make_ifs!` emits one name test per routine, in declaration order, and none for an empty list |
| Dispatch.FirstMatch | src/lib.rs:40-44 | the chain stops at the first test whose name equals the requested one; it falls through exactly when no test matches |
| Dispatch.CalledRoutine | src/lib.rs:48-52 | the callback invoked is that of the first routine whose name equals the request; none is invoked exactly when no routine has the name |
| Dispatch.Handle | src/lib.rs:167-171 | `handle` returns `Ok` exactly when some routine has the name; otherwise it returns the not-found error with the name embedded |
| Dispatch.HandleChain | src/lib.rs:39-53 | the chain executed test by test calls the first matching routine, or falls through to the not-found error |
| Dispatch.CalledIsFirst | src/lib.rs:40-43 | a routine with the name, preceded by none with it, is the one whose callback runs |
| Dispatch.HandleChainAgrees | src/lib.rs:168-170 | the statement-by-statement chain and the functional `handle` give the same result and call the same routine |
| Dispatch.NameInMessageRoundTrip | src/lib.rs:170 | the requested name can be read back, verbatim, from the not-found message |
| Dispatch.NotFoundMessageInjective | src/lib.rs:170 | different names give different not-found messages |
| Dispatch.EmptyRegistryNotFound | src/lib.rs:55 | with no routines, every name gives the not-found error and no callback runs |
| Dispatch.IfChainAppend | src/lib.rs:44 | the tests for two blocks of routines are the tests of the first followed by those of the second |
| Dispatch.LaterRoutinesIrrelevant | src/lib.rs:41-44 | once a routine matches, routines declared after it change neither the callback called nor the result |
| Dispatch.EarlierMismatchesShift | src/lib.rs:44-52 | routines before the first match that do not have the name only shift the position of the routine called |
| Dispatch.OnlyNamesMatter | src/lib.rs:41-42 | visibility, arguments, return type and body do not affect dispatch; the callback's value never reaches the result |
| Dispatch.VisibilityIrrelevant | src/lib.rs:39-53 | `pub rt` and `rt` routines are dispatched identically |
| Routines.Duplicate | src/lib.rs:162-165 | reports a name that two routines share, and reports none exactly when all names are distinct |
| Routines.WithArguments | src/lib.rs:41 | names a routine that takes arguments, and none exactly when every routine takes none |
| Routines.Expand | src/lib.rs:157-173 | a block is accepted by the macros' patterns and free of argument and duplicate faults exactly when it is non-empty, every declaration has the accepted shape, no routine takes arguments and names are distinct; the accepted registry is the declarations in order; the argument and duplicate errors name the offending routine |
| Routines.ExpandRendered | src/lib.rs:158-165 | every non-empty list of well-shaped, distinctly named routines without arguments is accepted by the macros' patterns, free of argument and duplicate faults, and yields exactly those routines |
| Routines.ExpandRejectsArguments | src/lib.rs:41-49 | a block holding a well-shaped routine with arguments does not compile |
| Routines.AddWithArgumentRejected | src/lib.rs:25 | `rt add(a: u8) -> u8 { a }` alone in a block is refused for its argument |
| Declarations.TranscribedParamsAsWrittenMalformed | src/lib.rs:6 | the argument list the templates write out is not a `name: type` list whenever the routine has an argument, and is empty otherwise |
| Declarations.TranscribedParams | src/lib.rs:30 | the corrected argument list reads back as exactly the declared arguments |
| Routines.ExpandRejectsMissingReturnType | src/lib.rs:64-65 | a block holding a routine without a return type does not compile |
| Declarations.BareDeclarationRejected | src/lib.rs:79-83 | a declaration with neither argument list nor return type, anywhere in a block, makes the block match no arm |
| Routines.NoReturnRoutineRejected | src/lib.rs:82 | the documented `rt no_return_routine { }` is refused because no arm matches it |
| Routines.CalledIsUnique | src/lib.rs:162-168 | in an accepted block, the routine called is the only one that has the name |
| Routines.HelloExpands | src/lib.rs:178-182 | the unit test's block expands to exactly one private routine `hello` |
| Routines.HelloTest | src/lib.rs:184-198 | for that routine, `handle("hello")` is `Ok` and `handle("nonexistent")` is the exact not-found error |
| Routines.HelloExactMatch | src/lib.rs:40 | a prefix, an extension and a case variant of `hello` are all not found |
| Routines.PublicHelloSameDispatch | src/lib.rs:47-53 | declaring `hello` with `pub` changes no dispatch result |

## Left out

- The Main/Master/Slave protocol, packet kinds, worker selection and result storage. They exist only as documentation marked unimplemented, with no code behind them.
- The caller stubs that `__make_caller!` generates. Their bodies are `unimplemented!()`, so only the declaration shape they accept is modelled.
- The `poll`/`await` call handle. The documentation describes it as unimplemented.
- Routine arguments at dispatch. `handle` takes no argument payload and calls callbacks with none, so a routine with arguments is refused by `Expand` as a whole. The compiler's individual messages are not modelled.
- Routine bodies and return values. A callback is an opaque block. The model records only which callback dispatch reaches.
- Rust tokenisation and fragment parsing. A type is one token, and a malformed type or block is not represented. Identifiers are assumed not to be keywords.
- Rust macro hygiene and module layout, and the test's `println!`/`panic!` output.
- Routines.Expand: `Ok` means only that the macros' patterns accept the block and that no routine takes arguments or shares a name. Four things are not modelled. (1) Type checking of return types and bodies. (2) Name resolution inside `__routines::callbacks`, where a type or item of the invoking module is not in scope (src/lib.rs:162-165). (3) A stub `fn` (src/lib.rs:6) clashing with an item of the invoking module. (4) rustc's macro recursion limit, 128 levels by default: each helper macro calls itself once per routine (src/lib.rs:9, 16, 26, 31, 44, 52), so a block of about 127 routines or more stops expanding with "recursion limit reached", yet `Expand` still gives `Ok` for it. The exact threshold depends on how rustc counts expansion depth and on the crate's `recursion_limit` attribute, so it is not modelled. A block with `Ok` may therefore still fail to expand or compile.
- Routines.ExpandRendered: for the same four reasons, it shows that such a block, of any length, is accepted by the macros' patterns with no argument or duplicate fault, not that the expansion succeeds under the recursion limit or compiles.
- Error priority in `Expand`. A block with several faults reports the first in the order empty block, shape, arguments, duplicate name. The compiler may report all of them.

## Findings

| source | as written | input that shows it | evidently intended | confidence | as-written member | corrected member |
|---|---|---|---|---|---|---|
| src/lib.rs:6, src/lib.rs:13, src/lib.rs:25, src/lib.rs:30 | the templates write `$var_name: $var_type:ty`, pasting the fragment specifier `:ty` after each argument type | `rt add(a: u8) -> u8 { a }` yields `fn add(a: u8:ty) -> u8`, which does not parse | `$var_name: $var_type`, giving `fn add(a: u8) -> u8` | high; not executed | Declarations.TranscribedParamsAsWrittenMalformed | Declarations.TranscribedParams |

With the corrected templates a routine with arguments would still not compile,
because `handle` calls every callback with no arguments (src/lib.rs:41,
src/lib.rs:49). `Expand` therefore refuses such routines either way.
