# rs-unit: the `describe`/`test` DSL, parsed and lowered

rs-unit is a procedural macro that lets Rust tests be written in a small
block-structured language. A run of `describe "Title" { ... }` blocks holds
`test "Title" { ... }` blocks and the optional hooks `setup_all`, `setup`
and `teardown`. The macro does two things:

- It parses the blocks into a tree: `Root` → `Describe` → `Test`, plus the hooks.
- It lowers that tree into a `#[cfg(test)] mod tests { ... }` module. Each
  describe becomes one sub-module and each test one `#[test]` function.

This Dafny project models both stages and the two label sanitizers they
share:

- `Labels` (`labels.dfy`): the describe-label chain (lowercase, then `' '`,
  `'/'` and `':'` to `'_'`) and the test-label chain (lowercase, `' '` to
  `'_'`, drop `':'`). The describe sanitizer's contract states what each
  character becomes. The test sanitizer, which can shorten a label, is
  proved equal to a separate character-by-character reference definition.
  Both sanitizers are proved idempotent and to distribute over
  concatenation.
- `Tokens` (`tokens.dfy`): the parser's input as already-tokenised
  describe headers and body items, the lowered output as a tree of
  modules, `use` items and functions, and the identifier rule that
  `Ident::new` enforces.
- `Ast` (`ast.dfy`): the `Root`, `Describe`, `Test` and hook values and the
  ways a parse or an expansion can fail.
- `Keywords` (`keywords.dfy`): `Root::parse` and `Describe::parse` as
  `while`-loop methods. Each is proved equal to a function that folds the
  same steps over the input. Around them are the leaf parsers and lemmas
  about duplicates, unexpected tokens, hook lowering and when a describe
  parses at all.
- `Generate` (`generate.dfy`): the `Generate` impls for `Root`, `Describe`,
  `Test` and the hooks, with a decoder that proves the lowering loses
  nothing for any parsed tree.
- `Expansion` (`expansion.dfy`): parse followed by lowering. It proves the
  shape of the emitted module, the exact condition under which expansion
  succeeds, and that two test titles which sanitize alike produce two
  functions with the same name.

The model follows the code as written, including where the source's own
comments show a different intent:

- The describe label maps `':'` and `'/'` to `'_'` (`src/keywords.rs:65-71`).
  It does not delete them, unlike the test label, which deletes `':'`.
- `teardown_all` has a parser and a doc comment (`src/keywords.rs:259-284`),
  but its branch in the describe loop is commented out
  (`src/keywords.rs:103-108`). So inside a describe body it is rejected
  like any other unexpected token, and it is not duplicate-checked.
- The `setup_all` doc comment shows a block run once
  (`src/keywords.rs:244-246`). Yet hook blocks are never emitted and
  nothing guards `setup_all` to run once: `Describe::generate` ignores the
  hook streams (`src/generate.rs:37-51`).
- `Describe::parse` lowers each hook it finds while still parsing. Lowering
  `setup` or `teardown` reaches `todo!()`, and `SetupAll` has no
  `Generate` impl at all. The model treats all three as the same failure,
  `HookUnimplemented`. So a describe that contains any hook yields no tree.
- The root module is always named `tests`. There is no counter.
- `Ident::new` panics on a string that is not an identifier. That panic is
  modelled as the failure `NotAnIdent`, both for describe labels (at parse
  time) and for test function names (at lowering time).

## Model

| member | source | states |
|---|---|---|
| Labels.DescribeLabel | src/keywords.rs:65-71 | the label keeps its length; every `' '`, `'/'` and `':'` becomes `'_'`; every other character is lowercased; the result holds no uppercase letter and no separator |
| Labels.DescribeLabelIdempotent | src/keywords.rs:65-71 | sanitizing a describe label twice gives the same label as once |
| Labels.DescribeLabelAppend | src/keywords.rs:65-71 | sanitizing a concatenation gives the concatenation of the sanitized parts |
| Labels.TestLabel | src/keywords.rs:163-168 | a test label is never longer than its title and holds no uppercase letter, no space and no colon |
| Labels.TestLabelIsCharwise | src/keywords.rs:163-168 | the chain of `to_lowercase`, `replace(" ", "_")` and `replace(":", "")` equals a character-by-character reference: space becomes `_`, colon disappears, and everything else is lowercased |
| Labels.TestLabelAppend | src/keywords.rs:163-168 | sanitizing a concatenation gives the concatenation of the sanitized parts |
| Labels.TestLabelFixes | src/keywords.rs:163-168 | a name made only of sanitized characters is left unchanged |
| Labels.TestLabelIdempotent | src/keywords.rs:163-168 | sanitizing a test label twice gives the same label as once |
| Labels.TestLabelExample | src/keywords.rs:155-168 | the documented title `success: Add positive numbers` becomes `success_add_positive_numbers` |
| Labels.TestLabelColonDropped | src/keywords.rs:163-168 | for a first character `x` and words `b` and `c` of kept characters, `<x><b>: <c>` and `<x><b> <c>` sanitize alike, to the image of `x` (lowered, or `_` for a space, or nothing for a colon), then `b`, `_`, `c` |
| Labels.TestLabelCollision | src/keywords.rs:163-168 | the distinct titles `Add: positive` and `Add positive` both sanitize to `add_positive` |
| Keywords.ParseHook | src/keywords.rs:194-284 | a hook parses exactly when its block does, keeps its kind and block, and otherwise fails with a bad-body error |
| Keywords.ParseTest | src/keywords.rs:160-176 | a test parses exactly when it has a string title and a well-formed block; its name is the sanitized title, which is a fixed point of the sanitizer; a missing title is reported before a bad block |
| Keywords.ParseDescribe | src/keywords.rs:62-140 | the `while` loop over the body returns exactly the fold of the per-item step over the body: the header checks, then the body, then hook lowering, then identifier validity of the label |
| Keywords.ParseDescribes | src/keywords.rs:33-35 | parsing a run of describes succeeds exactly when each one does; then the results line up one-to-one in order; otherwise the error is the error of some describe |
| Keywords.ParseRoot | src/keywords.rs:29-41 | the `while !input.is_empty()` loop returns exactly the root holding the parsed describes under the name `tests`, or the first failure |
| Keywords.StepEffect | src/keywords.rs:83-99 | a successful step appends the item's test, if any, fills the slot of the item's hook kind, and uses up exactly that slot's room |
| Keywords.StepFails | src/keywords.rs:83-102 | a step fails only on an item that does not parse or on a hook whose slot is already taken |
| Keywords.ScanSucceedsIff | src/keywords.rs:81-109 | the body loop gets through the body exactly when every item parses and no hook kind occurs more often than its free slots allow |
| Keywords.ScanEffect | src/keywords.rs:80-109 | after the body loop the tests are the body's tests in source order, and a slot is filled exactly when it was filled before or its kind occurs in the body |
| Keywords.DuplicateReported | src/keywords.rs:83-97 | a well-formed hook reached by the loop (every earlier item accepted) whose kind already appeared earlier in the body makes the describe fail with a duplicate error for that kind |
| Keywords.DuplicateRejected | src/keywords.rs:83-97 | a body with two hooks of the same kind never parses |
| Keywords.UnexpectedReported | src/keywords.rs:100-108 | an unknown item, `teardown_all` included, reached by the loop makes the describe fail with an unexpected-token error |
| Keywords.UnexpectedRejected | src/keywords.rs:100-108 | a body containing an unknown item or `teardown_all` never parses |
| Keywords.HookLoweringFails | src/keywords.rs:111-129 | when the body parses but holds a hook, the describe fails with the unimplemented lowering of the first hook kind in the order `setup_all`, `setup`, `teardown` |
| Keywords.DescribeSucceedsIff | src/keywords.rs:62-140 | a describe parses exactly when its header is complete, every item parses, there is no hook, and the sanitized label is an identifier |
| Keywords.DescribeParsed | src/keywords.rs:111-138 | a parsed describe is named by the sanitized label, holds the body's tests in order, and has four empty hook streams |
| Keywords.RootParsed | src/keywords.rs:29-41 | the root parses exactly when every describe does; it is then named `tests` and holds the parsed describes in order; otherwise its error is that of some describe |
| Keywords.TestsOfSanitized | src/keywords.rs:163-173 | every test name collected from a body is already sanitized |
| Keywords.TestIndexOfItem | src/keywords.rs:98-99 | the `p`-th body item, when it is a well-formed test (a title and a good block), lands in the test list at the position equal to the number of tests before it, and carries the sanitized title and the block |
| Generate.FnNamePrefixed | src/generate.rs:66-69 | the function name is `test_` followed by the sanitized test name |
| Generate.FnNameOfSanitized | src/generate.rs:66-69 | re-sanitizing inside lowering leaves an already sanitized name unchanged, so the function name is `test_` plus the parsed name |
| Generate.FnNameIsIdent | src/generate.rs:66-70 | for a sanitized name, the function name is a valid identifier exactly when every character of the name may continue an identifier |
| Generate.GenerateTest | src/generate.rs:64-84 | lowering a test succeeds exactly when its function name is an identifier, and then yields the `#[test]` function named `test_` plus the sanitized name whose body is the test's block; otherwise it fails naming that string |
| Generate.GenerateTests | src/generate.rs:40 | lowering all tests succeeds exactly when every function name is an identifier; then the functions match the tests one for one, in order; otherwise the failure names some test's function name |
| Generate.GenerateDescribe | src/generate.rs:37-52 | a describe lowers to a module named by its label, holding `use super::*` followed by one function per test, in order, exactly when every test lowers |
| Generate.DescribeIgnoresHooks | src/generate.rs:37-51 | the lowered describe is the same whatever its four hook streams hold |
| Generate.GenerateDescribes | src/generate.rs:15-19 | lowering all describes succeeds exactly when each does; the modules then match them one for one, in order |
| Generate.GenerateRoot | src/generate.rs:11-35 | the root lowers to a `#[cfg(test)]` module named by the root, holding `#[allow(unused_imports)] use super::*` followed by the describe modules in order, exactly when every describe lowers |
| Generate.GenerateHook | src/generate.rs:86-96 | lowering a hook always fails as unimplemented, for its own kind |
| Generate.LoweringIsLossless | src/generate.rs:11-84 | for any tree the parser can produce, the root can be read back from the lowered module: names, tests, blocks and order |
| Expansion.ExpansionIsLossless | src/generate.rs:11-35 | whatever parses and lowers can be decoded back to the very tree the parser built |
| Expansion.ExpandedDescribe | src/generate.rs:37-79 | the `i`-th describe block becomes the `i`-th sub-module of `tests`, named by its sanitized label; its `j`-th function is a `#[test]` named `test_` plus the `j`-th test's sanitized title, and carries that test's block |
| Expansion.ExpandedTest | src/generate.rs:40-46 | the `j`-th test of the `i`-th describe block becomes function `j + 1` of the `i`-th sub-module: a `#[test]` function named `test_` plus the test's sanitized name, carrying its block |
| Expansion.ExpansionSucceedsIff | src/generate.rs:66-70 | a parsed tree lowers exactly when every sanitized test name, after `test_`, consists of identifier characters |
| Expansion.CollidingLabelsCollide | src/generate.rs:66-70 | two tests in one describe whose titles sanitize alike become two functions with the same name in the same module |

## Left out

- `src/lib.rs` is not part of this model. As written it parses a single
  describe and emits an empty `mod tests {}`, and it declares no `generate`
  module. The model treats `keywords.rs` and `generate.rs` as if they were
  compiled together.
- Tokenisation is abstracted. This covers `syn`'s parsing, `braced!`,
  `lookahead1` and spans. The input is a sequence of describe headers,
  each with an optional title and optional braced contents, and the
  contents are a sequence of classified items.
- Rust blocks are opaque. They are carried from input to output unchanged
  and never inspected.
- The identifier tokens of the `describe`, `test` and hook keywords are not
  kept. Only their presence is checked.
- Error message text and error spans are left out. Errors are distinguished
  by kind only.
- The debug `eprintln!` of the parsed describes in `Root::generate` is left
  out, because it is output only.
- Labels.DescribeLabel: lowercasing covers ASCII letters only. Rust's
  `to_lowercase` is Unicode-aware and can change a string's length.
- Labels.TestLabel: the same ASCII-only lowercasing as DescribeLabel.
- Tokens.IsIdent: the identifier rule is ASCII only. `Ident::new` also
  accepts non-ASCII XID characters. Rust keywords (for example a describe
  titled `fn`) pass `Ident::new` and would fail later in the compiler;
  that later failure is not modelled.
- Generate.GenerateHook: the body of a setup or teardown function is never
  generated, because the source has none (`todo!()`). A missing
  `Generate` impl for `SetupAll` is a compile-time error in Rust, yet it is
  modelled as the same runtime failure.
- Running the generated tests is not part of the expansion, and neither is
  any hook ordering or run-once behaviour.
