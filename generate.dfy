/**
 * Lowering of the specification tree to Rust items: the root becomes a
 * `#[cfg(test)]` module, each describe a nested module, each test a `#[test]`
 * function whose body is the test's block. Building an identifier with
 * `Ident::new` panics on a string that is not an identifier; that panic, and
 * the `todo!()` of the hook generators, are the `Failure` results here.
 */
module Generate {
  import opened Wrappers
  import opened Labels
  import opened Tokens
  import opened Ast

  /** The function name for a test: "test_" and the name, sanitized again like a test label. */
  function FnName(name: string): (r: string) {
    TestLabel("test_" + name)
  }

  /** The function name is always "test_" followed by the sanitized name. */
  lemma FnNamePrefixed(name: string)
    ensures FnName(name) == "test_" + TestLabel(name)
  {
    TestLabelAppend("test_", name);
    TestLabelFixes("test_");
  }

  /** Re-sanitizing leaves an already sanitized name alone: the function is "test_" + name. */
  lemma FnNameOfSanitized(name: string)
    requires TestLabel(name) == name
    ensures FnName(name) == "test_" + name
  {
    FnNamePrefixed(name);
  }

  /** For a sanitized name, the function name is an identifier exactly when every character of the name may continue one. */
  lemma FnNameIsIdent(name: string)
    requires TestLabel(name) == name
    ensures IsIdent(FnName(name)) <==> forall i :: 0 <= i < |name| ==> IsIdentContinue(name[i])
  {
    FnNameOfSanitized(name);
    var f := FnName(name);
    if forall i :: 0 <= i < |name| ==> IsIdentContinue(name[i]) {
      forall i | 1 <= i < |f| ensures IsIdentContinue(f[i]) {
        if i >= 5 { assert f[i] == name[i - 5]; }
      }
    } else {
      var i :| 0 <= i < |name| && !IsIdentContinue(name[i]);
      assert f[i + 5] == name[i];
    }
  }

  /** The `Fn` a test lowers to when its name is an identifier. */
  function TestFn(t: Test): (r: OutItem) {
    Fn([TestAttr], FnName(t.name), t.content)
  }

  /** `#[test] fn test_<name>() { <block> }`, or the `Ident::new` panic on a bad name. */
  function GenerateTest(t: Test): (r: Result<OutItem, Failure>)
    ensures r.Success? <==> IsIdent(FnName(t.name))
    ensures r.Success? ==> r.value == Fn([TestAttr], "test_" + TestLabel(t.name), t.content)
    ensures r.Failure? ==> r.error == NotAnIdent(FnName(t.name))
  {
    FnNamePrefixed(t.name);
    if IsIdent(FnName(t.name)) then Success(TestFn(t)) else Failure(NotAnIdent(FnName(t.name)))
  }

  predicate AllFnNamesValid(tests: seq<Test>) {
    forall i :: 0 <= i < |tests| ==> IsIdent(FnName(tests[i].name))
  }

  /**
   * The tests of a describe, generated in order; the first test whose
   * function name is not an identifier aborts the expansion.
   */
  function GenerateTests(tests: seq<Test>): (r: Result<seq<OutItem>, Failure>)
    ensures r.Success? <==> AllFnNamesValid(tests)
    ensures r.Success? ==> |r.value| == |tests| && forall i :: 0 <= i < |tests| ==> r.value[i] == TestFn(tests[i])
    ensures r.Failure? ==> exists i :: 0 <= i < |tests| && r.error == NotAnIdent(FnName(tests[i].name))
                                     && !IsIdent(FnName(tests[i].name)) && AllFnNamesValid(tests[..i])
  {
    if tests == [] then Success([])
    else
      var f :- GenerateTest(tests[0]);
      var rest := GenerateTests(tests[1..]);
      if rest.Failure? then
        FirstBadNameShifts(tests, rest.error);
        Failure(rest.error)
      else
        Success([f] + rest.value)
  }

  /** A first bad function name in the tail of a list whose head is valid is the first bad one of the whole list. */
  lemma FirstBadNameShifts(tests: seq<Test>, e: Failure)
    requires tests != [] && IsIdent(FnName(tests[0].name))
    requires exists j :: 0 <= j < |tests[1..]| && e == NotAnIdent(FnName(tests[1..][j].name))
                         && !IsIdent(FnName(tests[1..][j].name)) && AllFnNamesValid(tests[1..][..j])
    ensures exists i :: 0 <= i < |tests| && e == NotAnIdent(FnName(tests[i].name))
                        && !IsIdent(FnName(tests[i].name)) && AllFnNamesValid(tests[..i])
  {
    var j :| 0 <= j < |tests[1..]| && e == NotAnIdent(FnName(tests[1..][j].name))
             && !IsIdent(FnName(tests[1..][j].name)) && AllFnNamesValid(tests[1..][..j]);
    assert tests[..j + 1] == [tests[0]] + tests[1..][..j];
    assert tests[j + 1] == tests[1..][j];
  }

  /** `mod <ident> { use super::*; <tests> }`; the hook streams are not used. */
  function GenerateDescribe(d: Describe): (r: Result<OutItem, Failure>)
    ensures r.Success? <==> AllFnNamesValid(d.tests)
    ensures r.Success? ==> r.value.Module? && r.value.attrs == [] && r.value.name == d.ident
                           && |r.value.items| == |d.tests| + 1 && r.value.items[0] == UseSuperGlob([])
                           && forall i :: 0 <= i < |d.tests| ==> r.value.items[i + 1] == TestFn(d.tests[i])
  {
    var fns :- GenerateTests(d.tests);
    Success(Module([], d.ident, [UseSuperGlob([])] + fns))
  }

  /** A describe's output does not depend on its hook streams: no hook content reaches a test function. */
  lemma DescribeIgnoresHooks(d: Describe, setupAll: seq<OutItem>, setup: seq<OutItem>, teardownAll: seq<OutItem>, teardown: seq<OutItem>)
    ensures GenerateDescribe(d) == GenerateDescribe(d.(setupAll := setupAll, setup := setup, teardownAll := teardownAll, teardown := teardown))
  {
  }

  predicate AllDescribesValid(ds: seq<Describe>) {
    forall i :: 0 <= i < |ds| ==> AllFnNamesValid(ds[i].tests)
  }

  /** The describe modules, in order. */
  function GenerateDescribes(ds: seq<Describe>): (r: Result<seq<OutItem>, Failure>)
    ensures r.Success? <==> AllDescribesValid(ds)
    ensures r.Success? ==> |r.value| == |ds| && forall i :: 0 <= i < |ds| ==> GenerateDescribe(ds[i]) == Success(r.value[i])
  {
    if ds == [] then Success([])
    else
      var m :- GenerateDescribe(ds[0]);
      var ms :- GenerateDescribes(ds[1..]);
      Success([m] + ms)
  }

  /** `#[cfg(test)] mod <ident> { #[allow(unused_imports)] use super::*; <describes> }`. */
  function GenerateRoot(root: Root): (r: Result<OutItem, Failure>)
    ensures r.Success? <==> AllDescribesValid(root.describes)
    ensures r.Success? ==> r.value.Module? && r.value.attrs == [CfgTest] && r.value.name == root.ident
                           && |r.value.items| == |root.describes| + 1
                           && r.value.items[0] == UseSuperGlob([AllowUnusedImports])
                           && forall i :: 0 <= i < |root.describes| ==> GenerateDescribe(root.describes[i]) == Success(r.value.items[i + 1])
  {
    var mods :- GenerateDescribes(root.describes);
    Success(Module([CfgTest], root.ident, [UseSuperGlob([AllowUnusedImports])] + mods))
  }

  /**
   * Generating the stream of a `setup` or `teardown` block is `todo!()`, and
   * `setup_all` has no generator at all: every hook fails to lower.
   */
  function GenerateHook(h: Hook): (r: Result<seq<OutItem>, Failure>)
    ensures r.Failure? && r.error == HookUnimplemented(h.kind)
  {
    Failure(HookUnimplemented(h.kind))
  }

  // Reading a generated tree back into a specification tree.

  function TestOfFn(item: OutItem): (r: Option<Test>) {
    match item
    case Fn(attrs, name, body) =>
      if attrs == [TestAttr] && |name| >= 5 && name[..5] == "test_" then Some(Test(name[5..], body)) else None
    case _ => None
  }

  function TestsOfFns(items: seq<OutItem>): (r: Option<seq<Test>>) {
    if items == [] then Some([])
    else
      var t :- TestOfFn(items[0]);
      var ts :- TestsOfFns(items[1..]);
      Some([t] + ts)
  }

  function DescribeOfModule(item: OutItem): (r: Option<Describe>) {
    match item
    case Module(attrs, name, items) =>
      if attrs == [] && |items| > 0 && items[0] == UseSuperGlob([]) then
        var tests :- TestsOfFns(items[1..]);
        Some(Describe(name, [], [], tests, [], []))
      else None
    case _ => None
  }

  function DescribesOfModules(items: seq<OutItem>): (r: Option<seq<Describe>>) {
    if items == [] then Some([])
    else
      var d :- DescribeOfModule(items[0]);
      var ds :- DescribesOfModules(items[1..]);
      Some([d] + ds)
  }

  function RootOfModule(item: OutItem): (r: Option<Root>) {
    match item
    case Module(attrs, name, items) =>
      if attrs == [CfgTest] && |items| > 0 && items[0] == UseSuperGlob([AllowUnusedImports]) then
        var ds :- DescribesOfModules(items[1..]);
        Some(Root(name, ds))
      else None
    case _ => None
  }

  /** The shape every parsed describe has: sanitized test names and empty hook streams. */
  predicate ParsedDescribe(d: Describe) {
    && d.setupAll == [] && d.setup == [] && d.teardownAll == [] && d.teardown == []
    && forall i :: 0 <= i < |d.tests| ==> TestLabel(d.tests[i].name) == d.tests[i].name
  }

  predicate ParsedRoot(root: Root) {
    forall i :: 0 <= i < |root.describes| ==> ParsedDescribe(root.describes[i])
  }

  lemma {:induction false} TestsRecovered(tests: seq<Test>, fns: seq<OutItem>)
    requires forall i :: 0 <= i < |tests| ==> TestLabel(tests[i].name) == tests[i].name
    requires |fns| == |tests| && forall i :: 0 <= i < |tests| ==> fns[i] == TestFn(tests[i])
    ensures TestsOfFns(fns) == Some(tests)
  {
    if tests != [] {
      FnNameOfSanitized(tests[0].name);
      var f := FnName(tests[0].name);
      assert f[..5] == "test_" && f[5..] == tests[0].name;
      assert TestOfFn(fns[0]) == Some(tests[0]);
      TestsRecovered(tests[1..], fns[1..]);
      assert tests == [tests[0]] + tests[1..];
    }
  }

  lemma DescribeRecovered(d: Describe, m: OutItem)
    requires ParsedDescribe(d) && GenerateDescribe(d) == Success(m)
    ensures DescribeOfModule(m) == Some(d)
  {
    TestsRecovered(d.tests, m.items[1..]);
  }

  lemma {:induction false} DescribesRecovered(ds: seq<Describe>, ms: seq<OutItem>)
    requires forall i :: 0 <= i < |ds| ==> ParsedDescribe(ds[i])
    requires |ms| == |ds| && forall i :: 0 <= i < |ds| ==> GenerateDescribe(ds[i]) == Success(ms[i])
    ensures DescribesOfModules(ms) == Some(ds)
  {
    if ds != [] {
      DescribeRecovered(ds[0], ms[0]);
      DescribesRecovered(ds[1..], ms[1..]);
      assert ds == [ds[0]] + ds[1..];
    }
  }

  /**
   * Lowering a parsed root loses nothing: the generated tree reads back as the
   * root it came from (module names, test names, bodies and their order).
   */
  lemma LoweringIsLossless(root: Root, out: OutItem)
    requires ParsedRoot(root) && GenerateRoot(root) == Success(out)
    ensures RootOfModule(out) == Some(root)
  {
    DescribesRecovered(root.describes, out.items[1..]);
  }
}
