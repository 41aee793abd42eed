/**
 * The `routines!` macro: whether a block of declarations is accepted by the
 * macros' patterns and free of argument and duplicate faults, and the `handle`
 * function it then provides.
 *
 * The block is handed, token for token, to `__make_caller!`, to
 * `__make_callbacks!` inside `mod __routines::callbacks`, and to `__make_ifs!`
 * inside `handle`. Expansion fails when
 *  - the block is empty: the macro's pattern repeats its tokens zero or more
 *    times but its expansion repeats them one or more times, and a one-or-more
 *    repetition with nothing to repeat is refused;
 *  - a declaration matches no arm of the helper macros;
 *  - a routine takes arguments: the generated signatures paste the fragment
 *    specifier after each argument type (`a: u8:ty`), which is not Rust, and
 *    `handle` calls every callback with no arguments;
 *  - two routines share a name: each becomes a `pub fn` of that name in the one
 *    `callbacks` module, and a module cannot define a name twice.
 * Success does not mean the expansion completes or compiles: the helper macros
 * recurse once per routine, so rustc's macro recursion limit refuses very long
 * blocks, and types, bodies, and names a routine uses from the invoking module
 * are not checked here.
 */
module Routines {
  import opened Wrappers
  import opened Declarations
  import opened Dispatch

  datatype ExpansionError =
    | EmptyInvocation              // `routines! {}`
    | NoRuleMatched                // a declaration of the wrong shape
    | ArgumentsRejected(name: string) // the name of a routine that takes arguments
    | DuplicateRoutine(name: string) // the name of a routine declared twice

  /** No two routines share a name. */
  predicate DistinctNames(decls: seq<RoutineDecl>)
  {
    forall i, j :: 0 <= i < j < |decls| ==> decls[i].name != decls[j].name
  }

  /** A name some later routine also carries, if there is one. */
  function Duplicate(decls: seq<RoutineDecl>): (r: Option<string>)
    ensures r.None? <==> DistinctNames(decls)
    ensures r.Some? ==> exists i, j :: 0 <= i < j < |decls| && decls[i].name == r.value && decls[j].name == r.value
  {
    if |decls| == 0 then None
    else if exists j :: 1 <= j < |decls| && decls[j].name == decls[0].name then
      Some(decls[0].name)
    else
      match Duplicate(decls[1..])
      case Some(n) =>
        ghost var i, j :| 0 <= i < j < |decls[1..]| && decls[1..][i].name == n && decls[1..][j].name == n;
        assert decls[i + 1].name == n && decls[j + 1].name == n;
        Some(n)
      case None =>
        assert forall i, j :: 0 < i < j < |decls| ==> decls[1..][i - 1] == decls[i] && decls[1..][j - 1] == decls[j];
        None
  }

  /** Every routine takes no arguments. */
  predicate NoArguments(decls: seq<RoutineDecl>)
  {
    forall i :: 0 <= i < |decls| ==> |decls[i].params| == 0
  }

  /** The name of the first routine that takes arguments, if there is one. */
  function WithArguments(decls: seq<RoutineDecl>): (r: Option<string>)
    ensures r.None? <==> NoArguments(decls)
    ensures r.Some? ==> exists i :: 0 <= i < |decls| && decls[i].name == r.value && |decls[i].params| > 0
  {
    if |decls| == 0 then None
    else if |decls[0].params| > 0 then Some(decls[0].name)
    else
      match WithArguments(decls[1..])
      case Some(n) =>
        ghost var i :| 0 <= i < |decls[1..]| && decls[1..][i].name == n && |decls[1..][i].params| > 0;
        assert decls[i + 1] == decls[1..][i];
        Some(n)
      case None =>
        assert forall i :: 0 < i < |decls| ==> decls[1..][i - 1] == decls[i];
        None
  }

  /** Expanding `routines! { toks }`: the declared routines when the macros'
      patterns accept the block and no routine takes arguments or repeats a name, or the
      first such fault, in the order: empty block, shape, arguments, repeated
      name. Type checking, name resolution and the macro recursion limit are
      outside this model. */
  function Expand(toks: seq<Tok>): (r: Result<seq<RoutineDecl>, ExpansionError>)
    ensures r == Err(EmptyInvocation) <==> |toks| == 0
    ensures r == Err(NoRuleMatched) <==> |toks| > 0 && ParseDecls(toks).None?
    ensures r.Err? && r.error.ArgumentsRejected? ==>
      ParseDecls(toks).Some? &&
      exists i :: 0 <= i < |ParseDecls(toks).value| && ParseDecls(toks).value[i].name == r.error.name
                  && |ParseDecls(toks).value[i].params| > 0
    ensures r.Err? && r.error.DuplicateRoutine? ==>
      ParseDecls(toks).Some? && NoArguments(ParseDecls(toks).value) && !DistinctNames(ParseDecls(toks).value) &&
      exists i, j :: 0 <= i < j < |ParseDecls(toks).value| && ParseDecls(toks).value[i].name == r.error.name
                     && ParseDecls(toks).value[j].name == r.error.name
    ensures (|toks| > 0 && ParseDecls(toks).Some? && NoArguments(ParseDecls(toks).value)
             && DistinctNames(ParseDecls(toks).value)) ==> r == Ok(ParseDecls(toks).value)
    ensures r.Ok? ==> |r.value| > 0 && NoArguments(r.value) && DistinctNames(r.value) && RenderDecls(r.value) == toks
  {
    if |toks| == 0 then Err(EmptyInvocation)
    else
      match ParseDecls(toks)
      case None => Err(NoRuleMatched)
      case Some(decls) =>
        ParsedIsRendered(toks);
        match WithArguments(decls)
        case Some(n) => Err(ArgumentsRejected(n))
        case None =>
          match Duplicate(decls)
          case Some(n) => Err(DuplicateRoutine(n))
          case None => Ok(decls)
  }

  /** Every non-empty block of well-shaped, distinctly named routines without
      arguments expands to exactly those routines. */
  lemma ExpandRendered(decls: seq<RoutineDecl>)
    requires |decls| > 0 && NoArguments(decls) && DistinctNames(decls)
    ensures Expand(RenderDecls(decls)) == Ok(decls)
  {
    ParseRenderDecls(decls);
  }

  /** A block in which some well-shaped routine takes arguments does not compile. */
  lemma ExpandRejectsArguments(decls: seq<RoutineDecl>, i: nat)
    requires i < |decls| && |decls[i].params| > 0
    ensures Expand(RenderDecls(decls)).Err? && Expand(RenderDecls(decls)).error.ArgumentsRejected?
  {
    ParseRenderDecls(decls);
    assert !NoArguments(decls);
  }

  /** `rt add(a: u8) -> u8 { a }`, alone in a block, is refused for its argument. */
  lemma AddWithArgumentRejected()
    ensures Expand([Ident(RtKeyword), Ident("add"), Parens([Ident("a"), Colon, Ty("u8")]), Arrow, Ty("u8"), Block(0)])
            == Err(ArgumentsRejected("add"))
  {
    var d := RoutineDecl(Private, "add", [Param("a", "u8")], "u8", 0);
    assert RenderParams(d.params) == [Ident("a"), Colon, Ty("u8")];
    assert [d][1..] == [];
    assert RenderDecls([d]) == RenderDecl(d) + [];
    ParseRenderDecls([d]);
  }

  /** A block with a routine lacking its return type is refused. */
  lemma ExpandRejectsMissingReturnType(before: seq<RoutineDecl>, d: RoutineDecl, after: seq<Tok>)
    ensures Expand(RenderDecls(before) + RenderWithoutReturnType(d) + after) == Err(NoRuleMatched)
  {
    MissingReturnTypeRejected(before, d, after);
  }

  /** The documentation's `rt no_return_routine { }`, with neither argument list
      nor return type, is refused: no arm matches it. */
  lemma NoReturnRoutineRejected(b: nat)
    ensures Expand([Ident(RtKeyword), Ident("no_return_routine"), Block(b)]) == Err(NoRuleMatched)
  {
    var d := RoutineDecl(Private, "no_return_routine", [], "()", b);
    BareDeclarationRejected([], d, []);
    assert RenderDecls([]) + RenderBare(d) + [] == [Ident(RtKeyword), Ident("no_return_routine"), Block(b)];
  }

  /** In an expanded block, the routine `handle` calls is the one routine
      carrying the name, not merely the first. */
  lemma CalledIsUnique(toks: seq<Tok>, name: string, i: nat)
    requires Expand(toks).Ok?
    requires i < |Expand(toks).value| && Expand(toks).value[i].name == name
    ensures CalledRoutine(Expand(toks).value, name) == Some(i)
  {
  }

  /** The block of the unit test: `rt hello() -> &'static str { "Hello!" }`. */
  const HelloBlock: seq<Tok> :=
    [Ident(RtKeyword), Ident("hello"), Parens([]), Arrow, Ty("&'static str"), Block(0)]

  /** The routine that block declares. */
  const HelloRoutine: RoutineDecl := RoutineDecl(Private, "hello", [], "&'static str", 0)

  /** The unit test's block expands to its one routine. */
  lemma HelloExpands()
    ensures Expand(HelloBlock) == Ok([HelloRoutine])
  {
    var d := HelloRoutine;
    assert RenderParams([]) == [];
    assert RenderDecl(d) == HelloBlock;
    assert [d][1..] == [];
    assert RenderDecls([d]) == HelloBlock + [];
    ExpandRendered([d]);
  }

  /** The unit test: `handle` succeeds on `"hello"` and reports `"nonexistent"`
      as not found, with the exact message. */
  lemma HelloTest()
    ensures Handle([HelloRoutine], "hello") == Ok(())
    ensures Handle([HelloRoutine], "nonexistent") == Err("routine with name \"nonexistent\" not found")
  {
    assert [HelloRoutine][0].name == "hello";
    assert "nonexistent" != "hello";
    assert NotFoundMessage("nonexistent") == "routine with name \"nonexistent\" not found";
  }

  /** Matching is exact: a prefix, an extension and a case variant of `hello`
      are all reported as not found. */
  lemma HelloExactMatch()
    ensures Handle([HelloRoutine], "hell") == Err(NotFoundMessage("hell"))
    ensures Handle([HelloRoutine], "hello!") == Err(NotFoundMessage("hello!"))
    ensures Handle([HelloRoutine], "Hello") == Err(NotFoundMessage("Hello"))
  {
    assert [HelloRoutine][0].name == "hello";
    assert "hell" != "hello" && "hello!" != "hello" && "Hello" != "hello";
  }

  /** `pub rt hello` expands and dispatches exactly as `rt hello` does. */
  lemma PublicHelloSameDispatch(name: string)
    ensures Expand([Pub] + HelloBlock) == Ok([HelloRoutine.(vis := Public)])
    ensures Handle([HelloRoutine.(vis := Public)], name) == Handle([HelloRoutine], name)
  {
    var d := HelloRoutine.(vis := Public);
    assert RenderParams([]) == [];
    assert RenderDecl(d) == [Pub] + HelloBlock;
    assert [d][1..] == [];
    assert RenderDecls([d]) == [Pub] + HelloBlock + [];
    ExpandRendered([d]);
    VisibilityIrrelevant([d], Private, name);
    assert WithVisibility([d], Private) == [HelloRoutine];
  }
}
