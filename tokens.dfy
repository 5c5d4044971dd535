/**
 * What the parsers read and what the generators write, at the level of the
 * DSL's own keyword and brace structure. The statements inside a braced block
 * are never looked at: they are an opaque `Body` copied verbatim to the output.
 */
module Tokens {
  import opened Wrappers

  /** The statements of one `{ ... }` block, as the host's block parser produced them. */
  type Body

  /** The tokens where a block is expected: a well-formed block, or tokens the block parser rejects. */
  datatype BlockTokens = Block(body: Body) | BadBlock

  /**
   * One entry of a describe body, classified by its leading identifier.
   * `title` is the string literal after `test`, or `None` when the next token
   * is not a string literal. Anything whose leading token is none of the five
   * keywords is `OtherItem`.
   */
  datatype Item =
    | SetupAllItem(block: BlockTokens)
    | SetupItem(block: BlockTokens)
    | TeardownItem(block: BlockTokens)
    | TeardownAllItem(block: BlockTokens)
    | TestItem(title: Option<string>, block: BlockTokens)
    | OtherItem

  /**
   * One describe block in the macro input: a leading identifier (`None` when
   * the first token is not an identifier), a string literal label (`None` when
   * absent) and a brace-delimited body (`None` when no brace group follows).
   */
  datatype DescribeTokens = DescribeTokens(head: Option<string>, title: Option<string>, contents: Option<seq<Item>>)

  /** Outer attributes the generators put on items. */
  datatype Attr = CfgTest | AllowUnusedImports | TestAttr

  /** The generated Rust items, as a tree. A token stream is a `seq<OutItem>`. */
  datatype OutItem =
    | Module(attrs: seq<Attr>, name: string, items: seq<OutItem>)
    | UseSuperGlob(attrs: seq<Attr>)
    | Fn(attrs: seq<Attr>, name: string, body: Body)

  predicate IsIdentStart(c: char) {
    'a' <= c <= 'z' || 'A' <= c <= 'Z' || c == '_'
  }

  predicate IsIdentContinue(c: char) {
    IsIdentStart(c) || '0' <= c <= '9'
  }

  /** The strings `Ident::new` accepts (ASCII identifier characters only). */
  predicate IsIdent(s: string) {
    |s| > 0 && IsIdentStart(s[0]) && forall i :: 1 <= i < |s| ==> IsIdentContinue(s[i])
  }
}
