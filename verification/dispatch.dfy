/**
 * `__routines::handle`, the dispatch function that `routines!` generates.
 *
 * `__make_ifs!` turns the declarations into a chain of `if` statements, one per
 * declaration and in declaration order, each comparing the requested name with
 * the declaration's name by exact string equality. The first test that holds
 * calls that routine's callback, discards its value and returns `Ok(())`; when
 * none holds, control falls through to the not-found error.
 */
module Dispatch {
  import opened Wrappers
  import opened Declarations

  /** The names `__make_ifs!` tests, one `if` per declaration in order; the
      `stringify!` of an identifier is its text. The empty declaration list is
      the base case, which emits no test at all. */
  function IfChain(decls: seq<RoutineDecl>): (chain: seq<string>)
    ensures |chain| == |decls|
    ensures forall i :: 0 <= i < |decls| ==> chain[i] == decls[i].name
  {
    if |decls| == 0 then [] else [decls[0].name] + IfChain(decls[1..])
  }

  /** Position of the first test in `chain` that `name` passes: running down the
      chain and stopping at the first `return`. */
  function FirstMatch(chain: seq<string>, name: string): (r: Option<nat>)
    ensures r.None? <==> name !in chain
    ensures r.Some? ==> r.value < |chain| && chain[r.value] == name
    ensures r.Some? ==> forall j :: 0 <= j < r.value ==> chain[j] != name
  {
    if |chain| == 0 then None
    else if chain[0] == name then Some(0)
    else
      match FirstMatch(chain[1..], name)
      case None => None
      case Some(i) => Some(i + 1)
  }

  /** The error text `handle` returns for a name no routine has. */
  function NotFoundMessage(name: string): string
  {
    "routine with name \"" + name + "\" not found"
  }

  /** Which routine's callback `handle(name)` invokes, if any. */
  function CalledRoutine(decls: seq<RoutineDecl>, name: string): (r: Option<nat>)
    ensures r.None? <==> forall i :: 0 <= i < |decls| ==> decls[i].name != name
    ensures r.Some? ==> r.value < |decls| && decls[r.value].name == name
    ensures r.Some? ==> forall j :: 0 <= j < r.value ==> decls[j].name != name
  {
    FirstMatch(IfChain(decls), name)
  }

  /** `__routines::handle(name)`: `Ok(())` when some routine is called `name`,
      otherwise the not-found error carrying `name` verbatim. */
  function Handle(decls: seq<RoutineDecl>, name: string): (r: Result<(), string>)
    ensures r.Ok? <==> exists i :: 0 <= i < |decls| && decls[i].name == name
    ensures r.Err? ==> r.error == "routine with name \"" + name + "\" not found"
  {
    match CalledRoutine(decls, name)
    case Some(_) => Ok(())
    case None => Err(NotFoundMessage(name))
  }

  /** The generated `if` chain run statement by statement: each test in turn,
      leaving at the first one that holds. */
  method HandleChain(decls: seq<RoutineDecl>, name: string) returns (r: Result<(), string>, called: Option<nat>)
    ensures called.Some? ==> called.value < |decls| && decls[called.value].name == name
    ensures called.Some? ==> forall j :: 0 <= j < called.value ==> decls[j].name != name
    ensures called.None? ==> forall j :: 0 <= j < |decls| ==> decls[j].name != name
    ensures r.Ok? <==> called.Some?
    ensures r.Err? ==> r.error == NotFoundMessage(name)
  {
    var i := 0;
    while i < |decls|
      invariant 0 <= i <= |decls|
      invariant forall j :: 0 <= j < i ==> decls[j].name != name
    {
      if decls[i].name == name {
        return Ok(()), Some(i);
      }
      i := i + 1;
    }
    return Err(NotFoundMessage(name)), None;
  }

  /** The first routine carrying `name` is the one whose callback is called. */
  lemma CalledIsFirst(decls: seq<RoutineDecl>, name: string, k: nat)
    requires k < |decls| && decls[k].name == name
    requires forall j :: 0 <= j < k ==> decls[j].name != name
    ensures CalledRoutine(decls, name) == Some(k)
  {
  }

  /** The statement-by-statement chain agrees with the functional model. */
  lemma HandleChainAgrees(decls: seq<RoutineDecl>, name: string, r: Result<(), string>, called: Option<nat>)
    requires called.Some? ==> called.value < |decls| && decls[called.value].name == name
    requires called.Some? ==> forall j :: 0 <= j < called.value ==> decls[j].name != name
    requires called.None? ==> forall j :: 0 <= j < |decls| ==> decls[j].name != name
    requires r.Ok? <==> called.Some?
    requires r.Err? ==> r.error == NotFoundMessage(name)
    ensures called == CalledRoutine(decls, name)
    ensures r == Handle(decls, name)
  {
    if called.Some? {
      CalledIsFirst(decls, name, called.value);
      match r
      case Ok(u) => assert u == ();
    }
  }

  /** Reading the name back out of a not-found message. */
  function NameInMessage(msg: string): (r: Option<string>)
  {
    var prefix := "routine with name \"";
    var suffix := "\" not found";
    if |msg| >= |prefix| + |suffix| && msg[..|prefix|] == prefix && msg[|msg| - |suffix|..] == suffix
    then Some(msg[|prefix|..|msg| - |suffix|])
    else None
  }

  /** The not-found message embeds the name verbatim: it can be read back. */
  lemma NameInMessageRoundTrip(name: string)
    ensures NameInMessage(NotFoundMessage(name)) == Some(name)
  {
    var msg := NotFoundMessage(name);
    assert msg[..19] == "routine with name \"";
    assert msg[|msg| - 11..] == "\" not found";
    assert msg[19..|msg| - 11] == name;
  }

  /** Different names never give the same message. */
  lemma NotFoundMessageInjective(a: string, b: string)
    requires NotFoundMessage(a) == NotFoundMessage(b)
    ensures a == b
  {
    NameInMessageRoundTrip(a);
    NameInMessageRoundTrip(b);
  }

  /** With no routines declared, every name is reported as not found. */
  lemma EmptyRegistryNotFound(name: string)
    ensures Handle([], name) == Err(NotFoundMessage(name))
    ensures CalledRoutine([], name) == None
  {
  }

  /** The chain of a concatenation is the concatenation of the chains. */
  lemma IfChainAppend(a: seq<RoutineDecl>, b: seq<RoutineDecl>)
    ensures IfChain(a + b) == IfChain(a) + IfChain(b)
  {
    var l, r := IfChain(a + b), IfChain(a) + IfChain(b);
    assert |l| == |r|;
    forall i | 0 <= i < |l|
      ensures l[i] == r[i]
    {
      if i < |a| {
        assert (a + b)[i] == a[i];
      } else {
        assert (a + b)[i] == b[i - |a|];
      }
    }
  }

  /** Once a routine matches, declarations after it are never examined: appending
      more routines changes neither the callback called nor the result. */
  lemma LaterRoutinesIrrelevant(decls: seq<RoutineDecl>, more: seq<RoutineDecl>, name: string)
    requires CalledRoutine(decls, name).Some?
    ensures CalledRoutine(decls + more, name) == CalledRoutine(decls, name)
    ensures Handle(decls + more, name) == Ok(())
  {
    var i := CalledRoutine(decls, name).value;
    assert forall j :: 0 <= j <= i ==> (decls + more)[j] == decls[j];
    CalledIsFirst(decls + more, name, i);
  }

  /** A callback position moved past `n` earlier routines. */
  function Shifted(n: nat, r: Option<nat>): Option<nat>
  {
    match r
    case Some(i) => Some(n + i)
    case None => None
  }

  /** Routines before the first match that do not carry the name only shift the
      position of the callback called. */
  lemma EarlierMismatchesShift(skipped: seq<RoutineDecl>, decls: seq<RoutineDecl>, name: string)
    requires forall j :: 0 <= j < |skipped| ==> skipped[j].name != name
    ensures CalledRoutine(skipped + decls, name) == Shifted(|skipped|, CalledRoutine(decls, name))
    ensures Handle(skipped + decls, name) == Handle(decls, name)
  {
    var all := skipped + decls;
    var d := CalledRoutine(decls, name);
    var bound := if d.Some? then |skipped| + d.value else |all|;
    forall j | 0 <= j < bound
      ensures all[j].name != name
    {
      if j < |skipped| {
        assert all[j] == skipped[j];
      } else {
        assert all[j] == decls[j - |skipped|];
      }
    }
    if d.Some? {
      assert all[bound] == decls[d.value];
      CalledIsFirst(all, name, bound);
    }
  }

  /** Only the names of the declarations matter to dispatch: routines that differ
      in visibility, arguments, return type or body are dispatched alike, and the
      value a callback returns never reaches the result. */
  lemma OnlyNamesMatter(d1: seq<RoutineDecl>, d2: seq<RoutineDecl>, name: string)
    requires |d1| == |d2|
    requires forall i :: 0 <= i < |d1| ==> d1[i].name == d2[i].name
    ensures CalledRoutine(d1, name) == CalledRoutine(d2, name)
    ensures Handle(d1, name) == Handle(d2, name)
  {
    assert IfChain(d1) == IfChain(d2);
  }

  /** Every declaration given visibility `v`. */
  function WithVisibility(decls: seq<RoutineDecl>, v: Visibility): seq<RoutineDecl>
  {
    seq(|decls|, i requires 0 <= i < |decls| => decls[i].(vis := v))
  }

  /** `pub rt` and `rt` routines are dispatched identically. */
  lemma VisibilityIrrelevant(decls: seq<RoutineDecl>, v: Visibility, name: string)
    ensures Handle(WithVisibility(decls, v), name) == Handle(decls, name)
    ensures CalledRoutine(WithVisibility(decls, v), name) == CalledRoutine(decls, name)
  {
    OnlyNamesMatter(WithVisibility(decls, v), decls, name);
  }
}
