/**
 * The specification tree the parsers build: a root holding describe blocks,
 * each holding its tests and the token streams produced for its hooks.
 */
module Ast {
  import opened Tokens

  /** The four hook keywords. */
  datatype HookKind = SetupAllHook | SetupHook | TeardownHook | TeardownAllHook

  /** Why parsing stopped: the diagnostic kinds the parsers return. */
  datatype ParseError =
    | ExpectedIdent
    | ExpectedString
    | ExpectedBraces
    | BadBody
    | Duplicate(kind: HookKind)
    | UnexpectedToken

  /**
   * Why a macro expansion produced no output: a parse error, a hook whose
   * lowering is not implemented, or a name `Ident::new` refuses (both panic).
   */
  datatype Failure =
    | Syntax(error: ParseError)
    | HookUnimplemented(kind: HookKind)
    | NotAnIdent(name: string)

  /** A parsed `setup_all`, `setup`, `teardown` or `teardown_all` block. */
  datatype Hook = Hook(kind: HookKind, content: Body)

  /** A parsed test: its sanitized name and its block. */
  datatype Test = Test(name: string, content: Body)

  /** A parsed describe block: its module name, its tests in source order and its hook streams. */
  datatype Describe = Describe(
    ident: string,
    setupAll: seq<OutItem>,
    setup: seq<OutItem>,
    tests: seq<Test>,
    teardownAll: seq<OutItem>,
    teardown: seq<OutItem>)

  /** The whole specification: the outer module name and the describe blocks in input order. */
  datatype Root = Root(ident: string, describes: seq<Describe>)
}
