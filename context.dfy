/** The scope model of the parser's lexical feedback ("the lexer hack"):
    one mutable set holding the spellings that currently denote typedef
    names. Block scoping is done without a stack of scopes: a grammar
    reduction takes a snapshot of the whole set when a scope opens and
    writes it back when the scope closes. */
module ScopeContext {

  /** A set of identifier spellings. The source calls this type `context`
      inside struct Context and `Context::State` in the declarator header;
      both stand for the same hash set, modelled here as a mathematical set
      (hashing and iteration order play no part in its behaviour). */
  type State = set<string>

  /** One of the two declarations a reduction can announce to the scope. */
  datatype Declaration =
    | TypedefName(id: string)  // the spelling now denotes a typedef name
    | VarName(id: string)      // the spelling now denotes an ordinary name

  /** The set after one declaration: the declared spelling is a typedef
      name exactly when the declaration says so, and every other spelling
      keeps its classification. */
  function Declare(s: State, d: Declaration): (r: State)
    ensures d.id in r <==> d.TypedefName?
    ensures forall n :: n != d.id ==> (n in r <==> n in s)
  {
    match d
    case TypedefName(id) => s + {id}
    case VarName(id) => s - {id}
  }

  /** Declaring the same thing twice is the same as declaring it once. */
  lemma DeclareIdempotent(s: State, d: Declaration)
    ensures Declare(Declare(s, d), d) == Declare(s, d)
  {
  }

  /** The set after a sequence of declarations, made first to last. */
  function DeclareAll(s: State, ds: seq<Declaration>): State
    decreases |ds|
  {
    if ds == [] then s
    else Declare(DeclareAll(s, ds[..|ds| - 1]), ds[|ds| - 1])
  }

  /** A spelling that no declaration of the sequence names keeps the
      classification it had before the sequence. */
  lemma {:induction false} DeclareAllUntouched(s: State, ds: seq<Declaration>, n: string)
    requires forall i :: 0 <= i < |ds| ==> ds[i].id != n
    ensures n in DeclareAll(s, ds) <==> n in s
    decreases |ds|
  {
    if ds != [] {
      DeclareAllUntouched(s, ds[..|ds| - 1], n);
    }
  }

  /** The last declaration of a spelling decides its classification,
      whatever came before it. */
  lemma {:induction false} DeclareAllLastWins(s: State, ds: seq<Declaration>, n: string, k: nat)
    requires k < |ds| && ds[k].id == n
    requires forall i :: k < i < |ds| ==> ds[i].id != n
    ensures n in DeclareAll(s, ds) <==> ds[k].TypedefName?
    decreases |ds|
  {
    if k < |ds| - 1 {
      DeclareAllLastWins(s, ds[..|ds| - 1], n, k);
    }
  }

  /** The live scope of one parse. */
  class Context {
    /** The spellings that currently denote typedef names. */
    var current: State

    /** A fresh scope knows no typedef names. */
    constructor ()
      ensures current == {}
    {
      current := {};
    }

    /** The query the tokenizer's callback answers: does `id` denote a
        typedef name here? It changes nothing. */
    method IsTypedefName(id: string) returns (b: bool)
      ensures b <==> id in current
    {
      b := id in current;
    }

    /** Makes `id` a typedef name; every other spelling is unchanged. */
    method DeclareTypedefName(id: string)
      modifies this
      ensures current == Declare(old(current), TypedefName(id))
    {
      current := current + {id};
    }

    /** Makes `id` an ordinary name; every other spelling is unchanged.
        Erasing a spelling that is not there is allowed and does nothing. */
    method DeclareVarName(id: string)
      modifies this
      ensures current == Declare(old(current), VarName(id))
    {
      current := current - {id};
    }

    /** A copy of the whole set, taken when a scope opens. */
    method SaveContext() returns (snapshot: State)
      ensures snapshot == current
    {
      snapshot := current;
    }

    /** Overwrites the whole set with a snapshot, whatever it held. */
    method RestoreContext(snapshot: State)
      modifies this
      ensures current == snapshot
    {
      current := snapshot;
    }

    /** Makes the declarations `ds` one after another, through the two
        declaring operations above. */
    method DeclareEach(ds: seq<Declaration>)
      modifies this
      ensures current == DeclareAll(old(current), ds)
    {
      var i := 0;
      while i < |ds|
        invariant 0 <= i <= |ds|
        invariant current == DeclareAll(old(current), ds[..i])
      {
        assert ds[..i + 1][..i] == ds[..i];
        match ds[i] {
          case TypedefName(id) => DeclareTypedefName(id);
          case VarName(id) => DeclareVarName(id);
        }
        i := i + 1;
      }
      assert ds[..|ds|] == ds;
    }

    /** The block-scoping discipline: snapshot, declare anything inside the
        scope, restore. `inner` is the scope as it stood just before it
        closed. Leaving the scope undoes every declaration made in it, and
        the snapshot, being a copy, is not affected by those declarations. */
    method Block(ds: seq<Declaration>) returns (saved: State, inner: State)
      modifies this
      ensures saved == old(current)
      ensures inner == DeclareAll(old(current), ds)
      ensures current == old(current)
    {
      saved := SaveContext();
      DeclareEach(ds);
      inner := SaveContext();
      RestoreContext(saved);
    }
  }
}
