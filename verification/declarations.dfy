/**
 * The shape of a routine declaration inside a `routines!` block.
 *
 * The three helper macros of src/lib.rs (`__make_caller!`, `__make_callbacks!`
 * and `__make_ifs!`) all accept the same declaration shape:
 *
 *     [pub] rt <name>(<arg>: <type>, ...) -> <type> { ... } <more declarations>
 *
 * and all recurse on the tokens that follow the block, stopping at an empty
 * token list. A token list that no arm matches stops macro expansion, so the
 * program does not compile. This module models that shape as a parser over an
 * abstract token stream, together with the renderer it inverts.
 */
module Declarations {
  import opened Wrappers

  /** The literal that introduces a routine; to Rust it is an ordinary identifier. */
  const RtKeyword: string := "rt"

  /** Token trees as the macros see them. A whole type (what a `ty` fragment
      matches) is one `Ty` token; a brace block (what a `block` fragment matches)
      is one `Block` token whose body is opaque and identified by a number. */
  datatype Tok =
    | Pub                     // the `pub` keyword
    | Ident(text: string)     // an identifier; `rt` itself is one
    | Colon                   // `:`
    | Comma                   // `,`
    | Arrow                   // `->`
    | Ty(ty: string)          // one complete type
    | Parens(inner: seq<Tok>) // a parenthesised group
    | Block(body: nat)        // a `{ ... }` block

  datatype Visibility = Private | Public

  /** One `name: type` argument. */
  datatype Param = Param(name: string, ty: string)

  /** One accepted routine declaration: every one carries a return type. */
  datatype RoutineDecl = RoutineDecl(vis: Visibility, name: string, params: seq<Param>, ret: string, body: nat)

  /** The tokens of an argument list: `name: type` items separated by commas,
      with no trailing comma. */
  function RenderParams(ps: seq<Param>): (toks: seq<Tok>)
    ensures |ps| == 0 <==> |toks| == 0
  {
    if |ps| == 0 then []
    else [Ident(ps[0].name), Colon, Ty(ps[0].ty)]
         + (if |ps| == 1 then [] else [Comma] + RenderParams(ps[1..]))
  }

  /** The contents of a declaration's parentheses, as matched by the repetition
      `$($var_name:ident: $var_type:ty),*`. `None` when the repetition does not
      match (a trailing comma, a missing colon, a stray token). */
  function ParseParams(toks: seq<Tok>): (r: Option<seq<Param>>)
    decreases |toks|
  {
    if |toks| == 0 then Some([])
    else if |toks| >= 3 && toks[0].Ident? && toks[1] == Colon && toks[2].Ty? then
      var p := Param(toks[0].text, toks[2].ty);
      if |toks| == 3 then Some([p])
      else if toks[3] == Comma && |toks| > 4 then
        match ParseParams(toks[4..])
        case Some(ps) => Some([p] + ps)
        case None => None
      else None
    else None
  }

  /** The repetition accepts nothing but rendered argument lists. */
  lemma {:induction false} ParsedParamsAreRendered(toks: seq<Tok>)
    ensures ParseParams(toks).Some? ==> RenderParams(ParseParams(toks).value) == toks
    decreases |toks|
  {
    if |toks| > 4 && ParseParams(toks).Some? {
      ParsedParamsAreRendered(toks[4..]);
      var ps := ParseParams(toks).value;
      assert ps[1..] == ParseParams(toks[4..]).value;
      assert toks == toks[..4] + toks[4..];
    }
  }

  /** `pub` in front of a public declaration, nothing in front of a private one. */
  function VisibilityTokens(v: Visibility): seq<Tok>
  {
    if v == Public then [Pub] else []
  }

  /** The tokens of a declaration from `rt` to its block. */
  function RoutineTokens(d: RoutineDecl): seq<Tok>
  {
    [Ident(RtKeyword), Ident(d.name), Parens(RenderParams(d.params)), Arrow, Ty(d.ret), Block(d.body)]
  }

  /** The argument list as the caller-stub and callback templates write it out:
      each argument type is followed by the pasted fragment specifier, the
      tokens `:` and `ty`. */
  function TranscribedParamsAsWritten(ps: seq<Param>): seq<Tok>
  {
    if |ps| == 0 then []
    else [Ident(ps[0].name), Colon, Ty(ps[0].ty), Colon, Ident("ty")]
         + (if |ps| == 1 then [] else [Comma] + TranscribedParamsAsWritten(ps[1..]))
  }

  /** As written, any routine with an argument gets a signature that is not a
      `name: type` list, so the generated function does not parse; a routine
      without arguments is unaffected. */
  lemma TranscribedParamsAsWrittenMalformed(ps: seq<Param>)
    ensures |ps| > 0 ==> ParseParams(TranscribedParamsAsWritten(ps)) == None
    ensures |ps| == 0 ==> TranscribedParamsAsWritten(ps) == []
  {
  }

  /** The argument list the templates evidently mean to write: the arguments
      exactly as declared, which read back as themselves. */
  function TranscribedParams(ps: seq<Param>): (toks: seq<Tok>)
    ensures ParseParams(toks) == Some(ps)
  {
    ParseRenderParams(ps);
    RenderParams(ps)
  }

  /** The tokens of one declaration. */
  function RenderDecl(d: RoutineDecl): seq<Tok>
  {
    VisibilityTokens(d.vis) + RoutineTokens(d)
  }

  /** The tokens of a whole `routines!` block. */
  function RenderDecls(ds: seq<RoutineDecl>): (toks: seq<Tok>)
    ensures |ds| == 0 <==> |toks| == 0
  {
    if |ds| == 0 then [] else RenderDecl(ds[0]) + RenderDecls(ds[1..])
  }

  /** The part of an arm after the optional `pub`:
      `rt $routine_name:ident(...) -> $ret:ty $block:block $($tail:tt)*`. */
  function ParseRoutine(vis: Visibility, toks: seq<Tok>): (r: Option<(RoutineDecl, seq<Tok>)>)
    ensures r.Some? ==> |r.value.1| + 6 == |toks|
  {
    if |toks| >= 6 && toks[0] == Ident(RtKeyword) && toks[1].Ident? && toks[2].Parens?
       && toks[3] == Arrow && toks[4].Ty? && toks[5].Block? then
      match ParseParams(toks[2].inner)
      case Some(ps) => Some((RoutineDecl(vis, toks[1].text, ps, toks[4].ty, toks[5].body), toks[6..]))
      case None => None
    else None
  }

  /** One step of the macro recursion: the `rt` arm or the `pub rt` arm matches
      the front of `toks`, giving the declaration and the `$($tail:tt)*` left over. */
  function ParseDecl(toks: seq<Tok>): (r: Option<(RoutineDecl, seq<Tok>)>)
    ensures r.Some? ==> |r.value.1| < |toks|
  {
    if |toks| > 0 && toks[0] == Pub then ParseRoutine(Public, toks[1..])
    else ParseRoutine(Private, toks)
  }

  /** One arm accepts nothing but a rendered declaration: the tokens it consumes
      are exactly the rendering of the declaration it yields. */
  lemma ParsedDeclIsRendered(toks: seq<Tok>)
    requires ParseDecl(toks).Some?
    ensures RenderDecl(ParseDecl(toks).value.0) + ParseDecl(toks).value.1 == toks
  {
    var (d, rest) := ParseDecl(toks).value;
    var body := if toks[0] == Pub then toks[1..] else toks;
    ParsedParamsAreRendered(body[2].inner);
    assert RoutineTokens(d) == body[..6];
    assert body == body[..6] + rest;
    if toks[0] == Pub {
      assert toks == [Pub] + body;
    }
  }

  /** `r` with `ds` put in front of the declarations it holds. */
  function PrependAll(ds: seq<RoutineDecl>, r: Option<seq<RoutineDecl>>): Option<seq<RoutineDecl>>
  {
    match r
    case Some(es) => Some(ds + es)
    case None => None
  }

  /** The whole recursion: declarations one after another until the token list is
      empty (the `() => ()` arm). `None` when at some point no arm matches. */
  function ParseDecls(toks: seq<Tok>): (r: Option<seq<RoutineDecl>>)
    decreases |toks|
  {
    if |toks| == 0 then Some([])
    else
      match ParseDecl(toks)
      case None => None
      case Some(step) => PrependAll([step.0], ParseDecls(step.1))
  }

  /** The declaration written without `-> <type>`, which the documentation calls an error. */
  function RenderWithoutReturnType(d: RoutineDecl): seq<Tok>
  {
    VisibilityTokens(d.vis) + [Ident(RtKeyword), Ident(d.name), Parens(RenderParams(d.params)), Block(d.body)]
  }

  /** The declaration written without its parentheses, as the documentation's
      example `rt private_routine -> &'static str { ... }` is. */
  function RenderWithoutParens(d: RoutineDecl): seq<Tok>
  {
    VisibilityTokens(d.vis) + [Ident(RtKeyword), Ident(d.name), Arrow, Ty(d.ret), Block(d.body)]
  }

  /** The declaration written with neither parentheses nor `-> <type>`, as the
      documentation's erroneous example `rt no_return_routine { }` is. */
  function RenderBare(d: RoutineDecl): seq<Tok>
  {
    VisibilityTokens(d.vis) + [Ident(RtKeyword), Ident(d.name), Block(d.body)]
  }

  /** Every argument list reads back as itself. */
  lemma {:induction false} ParseRenderParams(ps: seq<Param>)
    ensures ParseParams(RenderParams(ps)) == Some(ps)
    decreases |ps|
  {
    if |ps| > 1 {
      var toks := RenderParams(ps);
      ParseRenderParams(ps[1..]);
      assert toks[4..] == RenderParams(ps[1..]);
      assert [ps[0]] + ps[1..] == ps;
    } else if |ps| == 1 {
      assert [ps[0]] == ps;
    }
  }

  /** One declaration reads back as itself, whatever follows it. */
  lemma ParseRenderDecl(d: RoutineDecl, rest: seq<Tok>)
    ensures ParseDecl(RenderDecl(d) + rest) == Some((d, rest))
  {
    var body := RoutineTokens(d) + rest;
    ParseRenderParams(d.params);
    assert body[2] == Parens(RenderParams(d.params));
    assert body[6..] == rest;
    assert ParseRoutine(d.vis, body) == Some((d, rest));
    AppendAssoc(VisibilityTokens(d.vis), RoutineTokens(d), rest);
    if d.vis == Public {
      assert ([Pub] + body)[1..] == body;
    }
  }

  /** One unfolding of `ParseDecls` after a successful step, with what is known
      of the tokens after it. */
  lemma ParseDeclsStep(toks: seq<Tok>, d: RoutineDecl, tail: seq<Tok>, ds: seq<RoutineDecl>, rest: seq<Tok>)
    requires ParseDecl(toks) == Some((d, tail))
    requires ParseDecls(tail) == PrependAll(ds, ParseDecls(rest))
    ensures ParseDecls(toks) == PrependAll([d] + ds, ParseDecls(rest))
  {
    assert ParseDecls(toks) == PrependAll([d], ParseDecls(tail));
    var r := ParseDecls(rest);
    if r.Some? {
      AppendAssoc([d], ds, r.value);
    }
  }

  /** The tokens of a non-empty block, split after its first declaration. */
  lemma RenderDeclsCons(ds: seq<RoutineDecl>, rest: seq<Tok>)
    requires |ds| > 0
    ensures RenderDecls(ds) + rest == RenderDecl(ds[0]) + (RenderDecls(ds[1..]) + rest)
  {
    AppendAssoc(RenderDecl(ds[0]), RenderDecls(ds[1..]), rest);
  }

  /** Concatenation is associative. */
  lemma AppendAssoc<T>(a: seq<T>, b: seq<T>, c: seq<T>)
    ensures (a + b) + c == a + (b + c)
  {
  }

  /** Parsing a rendered prefix of declarations and then whatever follows: the
      prefix is always accepted, and the outcome is decided by the rest. */
  lemma {:induction false} ParseDeclsAppend(ds: seq<RoutineDecl>, rest: seq<Tok>)
    ensures ParseDecls(RenderDecls(ds) + rest) == PrependAll(ds, ParseDecls(rest))
    decreases |ds|
  {
    if |ds| == 0 {
      assert RenderDecls(ds) + rest == rest;
      if ParseDecls(rest).Some? {
        assert ds + ParseDecls(rest).value == ParseDecls(rest).value;
      }
    } else {
      var tail := RenderDecls(ds[1..]) + rest;
      var toks := RenderDecls(ds) + rest;
      RenderDeclsCons(ds, rest);
      ParseRenderDecl(ds[0], tail);
      ParseDeclsAppend(ds[1..], rest);
      ParseDeclsStep(toks, ds[0], tail, ds[1..], rest);
      assert [ds[0]] + ds[1..] == ds;
    }
  }

  /** The parser accepts nothing but rendered declarations: whatever it accepts is
      exactly the rendering of what it returns. */
  lemma {:induction false} ParsedIsRendered(toks: seq<Tok>)
    ensures ParseDecls(toks).Some? ==> RenderDecls(ParseDecls(toks).value) == toks
    decreases |toks|
  {
    if |toks| > 0 && ParseDecls(toks).Some? {
      var (d, rest) := ParseDecl(toks).value;
      ParsedIsRendered(rest);
      ParsedDeclIsRendered(toks);
      var ds := ParseDecls(rest).value;
      assert ParseDecls(toks) == PrependAll([d], ParseDecls(rest));
      assert ([d] + ds)[1..] == ds;
    }
  }

  /** Every list of declarations reads back as itself (the round trip). */
  lemma ParseRenderDecls(ds: seq<RoutineDecl>)
    ensures ParseDecls(RenderDecls(ds)) == Some(ds)
  {
    ParseDeclsAppend(ds, []);
    assert RenderDecls(ds) + [] == RenderDecls(ds);
    assert ds + [] == ds;
  }

  /** A declaration without a return type matches no arm, wherever it stands in the
      block: the whole block is refused. */
  lemma MissingReturnTypeRejected(before: seq<RoutineDecl>, d: RoutineDecl, after: seq<Tok>)
    ensures ParseDecls(RenderDecls(before) + RenderWithoutReturnType(d) + after) == None
  {
    var bad := RenderWithoutReturnType(d) + after;
    assert RenderDecls(before) + RenderWithoutReturnType(d) + after == RenderDecls(before) + bad;
    ParseDeclsAppend(before, bad);
    if d.vis == Public {
      assert bad[0] == Pub && bad[1..][3] == Block(d.body);
    } else {
      assert bad[3] == Block(d.body);
    }
  }

  /** A declaration without parentheses matches no arm either. */
  lemma MissingParensRejected(before: seq<RoutineDecl>, d: RoutineDecl, after: seq<Tok>)
    ensures ParseDecls(RenderDecls(before) + RenderWithoutParens(d) + after) == None
  {
    var bad := RenderWithoutParens(d) + after;
    assert RenderDecls(before) + RenderWithoutParens(d) + after == RenderDecls(before) + bad;
    ParseDeclsAppend(before, bad);
    if d.vis == Public {
      assert bad[0] == Pub && bad[1..][2] == Arrow;
    } else {
      assert bad[2] == Arrow;
    }
  }

  /** A declaration with neither argument list nor return type matches no arm
      either. */
  lemma BareDeclarationRejected(before: seq<RoutineDecl>, d: RoutineDecl, after: seq<Tok>)
    ensures ParseDecls(RenderDecls(before) + RenderBare(d) + after) == None
  {
    var bad := RenderBare(d) + after;
    assert RenderDecls(before) + RenderBare(d) + after == RenderDecls(before) + bad;
    ParseDeclsAppend(before, bad);
    if d.vis == Public {
      assert bad[0] == Pub && bad[1..][2] == Block(d.body);
    } else {
      assert bad[2] == Block(d.body);
    }
  }
}
