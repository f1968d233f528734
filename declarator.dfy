/** Declarators: the shape of the name being declared, and the scope
    snapshot a function declarator carries so that the scope of its
    parameters can be re-entered at the start of the function body
    (ISO/IEC 9899:2011, section 6.2.1, paragraph 4: a parameter identifier
    has block scope that ends with the function body). */
module Declarators {
  import opened ScopeContext

  /** The closed three-way variant. Every shape carries the identifier
      being declared; a function declarator also owns a copy of a scope. */
  datatype Declarator =
    | IdentifierDeclarator(identifier: string)
    | FunctionDeclarator(identifier: string, ctx: State)
    | OtherDeclarator(identifier: string)
  {
    /** The declared identifier, whichever shape this is. */
    function Identifier(): (id: string)
      ensures id == identifier
    {
      match this
      case IdentifierDeclarator(i) => i
      case FunctionDeclarator(i, _) => i
      case OtherDeclarator(i) => i
    }

    /** The scope in force at the start of a function body, given the live
        scope `live` when the body opens. For a function declarator it is
        its captured scope in which its own name is an ordinary name, so
        that a recursive call is not read as a type; the live scope plays
        no part. Any other shape leaves the live scope as it is. */
    function ReinstalledScope(live: State): (r: State)
      ensures FunctionDeclarator? ==> identifier !in r
      ensures FunctionDeclarator? ==> forall n :: n != identifier ==> (n in r <==> n in ctx)
      ensures !FunctionDeclarator? ==> r == live
    {
      match this
      case FunctionDeclarator(id, saved) => Declare(saved, VarName(id))
      case _ => live
    }

    /** Re-establishes, in the live scope, the scope this declarator
        captured. The declarator itself is a value and cannot change. */
    method ReinstallFunctionContext(context: Context)
      modifies context
      ensures context.current == ReinstalledScope(old(context.current))
    {
      match this {
        case FunctionDeclarator(id, saved) =>
          context.RestoreContext(saved);
          context.DeclareVarName(id);
        case _ =>
      }
    }
  }

  /** A function declarator built around `d` when a parameter list is
      attached; `savedCtx` is the scope the caller passes in. Wrapping a
      bare identifier captures `savedCtx`; wrapping a function declarator
      keeps the scope that one already holds, so the result is `d` itself;
      wrapping any other shape captures nothing and leaves the scope empty,
      as a default-constructed set is. */
  function FunctionOf(d: Declarator, savedCtx: State): (f: Declarator)
    ensures f.FunctionDeclarator? && f.Identifier() == d.Identifier()
    ensures d.IdentifierDeclarator? ==> f.ctx == savedCtx
    ensures d.FunctionDeclarator? ==> f == d
    ensures d.OtherDeclarator? ==> f.ctx == {}
  {
    match d
    case IdentifierDeclarator(id) => FunctionDeclarator(id, savedCtx)
    case FunctionDeclarator(id, ctx) => FunctionDeclarator(id, ctx)
    case OtherDeclarator(id) => FunctionDeclarator(id, {})
  }

  /** Any other declarator (pointer, array, grouping) built around `d`: it
      keeps only the identifier, so a scope `d` carried is dropped. */
  function OtherOf(d: Declarator): (o: Declarator)
    ensures o.OtherDeclarator? && o.Identifier() == d.Identifier()
  {
    match d
    case IdentifierDeclarator(id) => OtherDeclarator(id)
    case FunctionDeclarator(id, _) => OtherDeclarator(id)
    case OtherDeclarator(id) => OtherDeclarator(id)
  }

  /** One step of building a declarator around another. */
  datatype Wrapping = FunctionWrap(savedCtx: State) | OtherWrap

  /** `d` with the wrappings `ws` applied, innermost first. */
  function Wrap(d: Declarator, ws: seq<Wrapping>): Declarator
    decreases |ws|
  {
    if ws == [] then d
    else
      var inner := Wrap(d, ws[..|ws| - 1]);
      match ws[|ws| - 1]
      case FunctionWrap(saved) => FunctionOf(inner, saved)
      case OtherWrap => OtherOf(inner)
  }

  /** However many shapes surround it, a declarator names what its
      innermost declarator names. */
  lemma {:induction false} NamePropagation(d: Declarator, ws: seq<Wrapping>)
    ensures Wrap(d, ws).Identifier() == d.Identifier()
    decreases |ws|
  {
    if ws != [] {
      NamePropagation(d, ws[..|ws| - 1]);
    }
  }

  /** Which scope the outermost function declarator around a bare
      identifier carries. If every wrapping is a function wrapping, it is
      the scope captured at the innermost parameter list. As soon as some
      other shape intervenes, the captured scope is lost and the outermost
      function declarator carries the empty scope. */
  lemma {:induction false} SnapshotCarried(x: string, ws: seq<Wrapping>)
    requires ws != [] && ws[|ws| - 1].FunctionWrap?
    ensures Wrap(IdentifierDeclarator(x), ws)
         == FunctionDeclarator(x, if forall i :: 0 <= i < |ws| ==> ws[i].FunctionWrap?
                                  then ws[0].savedCtx else {})
    decreases |ws|
  {
    var p := ws[..|ws| - 1];
    if p != [] {
      if p[|p| - 1].FunctionWrap? {
        SnapshotCarried(x, p);
        assert (forall i :: 0 <= i < |ws| ==> ws[i].FunctionWrap?)
           <==> (forall i :: 0 <= i < |p| ==> p[i].FunctionWrap?);
      } else {
        NamePropagation(IdentifierDeclarator(x), p);
        assert !ws[|p| - 1].FunctionWrap?;
      }
    }
  }

  /** The function-definition scope rule at the start of a body: for a
      function declarator built from a bare identifier `x` by function
      wrappings only, `x` is an ordinary name in the body even when it was a
      typedef name in the captured scope, and every other spelling is
      classified as in the scope captured at the innermost parameter list,
      whatever the live scope held. */
  lemma {:induction false} FunctionScopeReentry(x: string, ws: seq<Wrapping>, live: State)
    requires ws != []
    requires forall i :: 0 <= i < |ws| ==> ws[i].FunctionWrap?
    ensures x !in Wrap(IdentifierDeclarator(x), ws).ReinstalledScope(live)
    ensures forall n :: n != x ==>
      (n in Wrap(IdentifierDeclarator(x), ws).ReinstalledScope(live) <==> n in ws[0].savedCtx)
  {
    SnapshotCarried(x, ws);
  }

  /** For a function declarator, the scope at the start of the body does
      not depend on the live scope it replaces. */
  lemma ReinstallIgnoresLiveScope(d: Declarator, a: State, b: State)
    requires d.FunctionDeclarator?
    ensures d.ReinstalledScope(a) == d.ReinstalledScope(b)
  {
  }
}
