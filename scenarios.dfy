/** Two end-to-end parses from the parser's test suite, replayed as the
    calls the grammar's reductions make on the scope and on declarators.
    The grammar itself is not part of this model: each call below is
    placed where its reduction fires, and each classification is the
    answer the tokenizer's callback gets for that occurrence. */
module Scenarios {
  import opened ScopeContext
  import opened Declarators

  /** A block inside a function body hides a typedef name only until the
      block closes. T is declared a typedef name at file scope; the body of
      a function without parameters declares a variable of type T
      (`atY`), then an if-statement's block declares T as a variable and
      assigns to it (`atInner`), and after that block a second variable of
      type T is declared (`atX`). */
  method LocalScope() returns (atY: bool, atInner: bool, atX: bool)
    ensures atY && !atInner && atX
  {
    var c := new Context();
    c.DeclareTypedefName("T");
    // void f(void): the parameter list is a scope of its own
    var outer := c.SaveContext();
    var params := c.SaveContext();
    c.RestoreContext(outer);
    var f := FunctionOf(IdentifierDeclarator("f"), params);
    f.ReinstallFunctionContext(c);
    atY := c.IsTypedefName("T");
    c.DeclareVarName("y");
    // if(1) { ... }
    var block := c.SaveContext();
    c.DeclareVarName("T");
    atInner := c.IsTypedefName("T");
    c.RestoreContext(block);
    atX := c.IsTypedefName("T");
  }

  /** A function whose parameters reuse typedef names. T and U are typedef
      names at file scope and V an enumeration constant. Function f returns
      a pointer to a function and has three parameters: one named T of type
      T (`firstT` is the type's classification), one that declares
      enumeration constant U and is named y, and an array x whose bound adds
      T and U (`arrayT`, `arrayU`). The returned function type has one
      parameter of type T (`lastT`). In the body T, U, V, x and y must all
      denote variables. They do, but not because the parameter scope is
      carried into the body. The declarator of f is a function declarator
      around a pointer declarator around a function declarator. The pointer
      declarator drops the captured scope, so the body starts from the empty
      scope (`body`). Every typedef name is gone there, the file-scope ones
      included. */
  method FunctionReturningFunctionPointer()
    returns (firstT: bool, arrayT: bool, arrayU: bool, lastT: bool, body: State)
    ensures firstT && !arrayT && !arrayU && lastT
    ensures body == {}
  {
    var c := new Context();
    c.DeclareTypedefName("T");
    c.DeclareTypedefName("U");
    c.DeclareVarName("V");
    // f( T T, enum {U} y, int x[T+U] )
    var beforeParams := c.SaveContext();
    firstT := c.IsTypedefName("T");
    c.DeclareVarName("T");
    c.DeclareVarName("U");
    c.DeclareVarName("y");
    arrayT := c.IsTypedefName("T");
    arrayU := c.IsTypedefName("U");
    c.DeclareVarName("x");
    var paramScope := c.SaveContext();
    c.RestoreContext(beforeParams);
    var inner := FunctionOf(IdentifierDeclarator("f"), paramScope);
    // (* ... ) : a pointer inside a grouping
    var pointer := OtherOf(inner);
    // ( T t )
    var beforeLast := c.SaveContext();
    lastT := c.IsTypedefName("T");
    c.DeclareVarName("t");
    var lastScope := c.SaveContext();
    c.RestoreContext(beforeLast);
    var outerFn := FunctionOf(pointer, lastScope);
    // the body opens
    outerFn.ReinstallFunctionContext(c);
    body := c.SaveContext();
  }
}
