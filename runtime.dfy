/** The ambient execution context: one current value, set for the extent of a
    `use_ctx` block and restored when the block is left. */
module Runtime {
  import opened Base

  datatype Mode = Cli | Gui | Notebook

  /** Who runs the pipeline and how. */
  datatype ExecutionContext = ExecutionContext(userName: string, dryRun: bool, mode: Mode)

  function DefaultContext(userName: string): ExecutionContext
  {
    ExecutionContext(userName, false, Cli)
  }

  const NoContext := RuntimeError("ExecutionContext is not set. Call with use_ctx(ctx): ...")

  /** What `set` hands back: the value to restore. */
  datatype Token = Token(previous: Option<ExecutionContext>)

  /** `detect_mode`: a running Qt application wins over a notebook shell, and
      the command line is the fallback. The two probes are inputs. */
  function DetectMode(qtAppRunning: bool, notebookShell: bool): (m: Mode)
    ensures qtAppRunning ==> m == Gui
    ensures m == Notebook <==> !qtAppRunning && notebookShell
    ensures m == Cli <==> !qtAppRunning && !notebookShell
  {
    if qtAppRunning then Gui
    else if notebookShell then Notebook
    else Cli
  }

  /** The context variable `CURRENT_CTX`. */
  class ContextVar {
    var current: Option<ExecutionContext>

    constructor()
      ensures current == None
    {
      current := None;
    }

    /** `get_ctx`. */
    method GetCtx() returns (r: Result<ExecutionContext, Error>)
      ensures current.None? ==> r == Err(NoContext)
      ensures current.Some? ==> r == Ok(current.value)
    {
      if current.None? {
        return Err(NoContext);
      }
      return Ok(current.value);
    }

    /** `CURRENT_CTX.set(ctx)`, on entering `use_ctx`. */
    method Set(ctx: ExecutionContext) returns (token: Token)
      modifies this
      ensures current == Some(ctx) && token == Token(old(current))
    {
      token := Token(current);
      current := Some(ctx);
    }

    /** `CURRENT_CTX.reset(token)`, in the `finally` of `use_ctx`. */
    method Reset(token: Token)
      modifies this
      ensures current == token.previous
    {
      current := token.previous;
    }

    /** A `with use_ctx(ctx):` block whose body computes `body` from the
        context it sees. Whether the body returns or raises, the previous
        context is back in place afterwards. */
    method UseCtx<X>(ctx: ExecutionContext, body: Result<ExecutionContext, Error> -> Result<X, Error>) returns (r: Result<X, Error>)
      modifies this
      ensures r == body(Ok(ctx))
      ensures current == old(current)
    {
      var token := Set(ctx);
      var seen := GetCtx();
      r := body(seen);
      Reset(token);
    }

    /** Two nested blocks: the inner one sees its own context, and leaving it
        brings back the outer one. */
    method Nested(outer: ExecutionContext, inner: ExecutionContext) returns (inInner: Result<ExecutionContext, Error>, afterInner: Result<ExecutionContext, Error>)
      modifies this
      ensures inInner == Ok(inner) && afterInner == Ok(outer)
      ensures current == old(current)
    {
      var outerToken := Set(outer);
      var innerToken := Set(inner);
      inInner := GetCtx();
      Reset(innerToken);
      afterInner := GetCtx();
      Reset(outerToken);
    }
  }
}
