/**
 * Parsing followed by lowering: what the generated module tree holds for a
 * given macro input.
 */
module Expansion {
  import opened Wrappers
  import opened Labels
  import opened Tokens
  import opened Ast
  import opened Generate
  import opened Keywords

  /** The body of the `i`-th describe block of an input whose blocks all have a header. */
  function BodyOf(input: seq<DescribeTokens>, i: nat): (r: seq<Item>)
    requires i < |input| && HasHeader(input[i])
  {
    input[i].contents.value
  }

  /** Lowering a parsed input loses nothing: the output reads back as the parsed root. */
  lemma ExpansionIsLossless(input: seq<DescribeTokens>, root: Root, out: OutItem)
    requires RootSpec(input) == Success(root) && GenerateRoot(root) == Success(out)
    ensures RootOfModule(out) == Some(root)
  {
    RootParsed(input);
    LoweringIsLossless(root, out);
  }

  /**
   * For each describe block, the output holds a module named by the sanitized
   * label, with one `#[test]` function per `test` item in source order, named
   * "test_" and the sanitized test label, whose body is the test's block and
   * nothing else.
   */
  lemma ExpandedDescribe(input: seq<DescribeTokens>, root: Root, out: OutItem, i: nat)
    requires RootSpec(input) == Success(root) && GenerateRoot(root) == Success(out)
    requires i < |input|
    ensures HasHeader(input[i])
    ensures out.Module? && out.attrs == [CfgTest] && out.name == "tests" && |out.items| == |input| + 1
    ensures out.items[i + 1].Module? && out.items[i + 1].attrs == []
    ensures out.items[i + 1].name == DescribeLabel(input[i].title.value)
    ensures |out.items[i + 1].items| == |TestsOf(BodyOf(input, i))| + 1
    ensures forall j :: 0 <= j < |TestsOf(BodyOf(input, i))| ==>
              out.items[i + 1].items[j + 1]
              == Fn([TestAttr], "test_" + TestsOf(BodyOf(input, i))[j].name, TestsOf(BodyOf(input, i))[j].content)
  {
    RootParsed(input);
    var d := root.describes[i];
    DescribeParsed(input[i], d);
    forall j | 0 <= j < |d.tests| ensures FnName(d.tests[j].name) == "test_" + d.tests[j].name {
      FnNameOfSanitized(d.tests[j].name);
    }
  }

  /** The `j`-th test of the `i`-th describe block becomes function `j + 1` of the `i`-th sub-module. */
  lemma ExpandedTest(input: seq<DescribeTokens>, root: Root, out: OutItem, i: nat, j: nat)
    requires RootSpec(input) == Success(root) && GenerateRoot(root) == Success(out)
    requires i < |input| && HasHeader(input[i]) && j < |TestsOf(BodyOf(input, i))|
    ensures out.Module? && i + 1 < |out.items| && out.items[i + 1].Module?
    ensures j + 1 < |out.items[i + 1].items|
    ensures out.items[i + 1].items[j + 1]
            == Fn([TestAttr], "test_" + TestsOf(BodyOf(input, i))[j].name, TestsOf(BodyOf(input, i))[j].content)
  {
    ExpandedDescribe(input, root, out, i);
  }

  /** Every character of every test name of the root may continue an identifier. */
  predicate TestNamesAreIdentTails(root: Root) {
    forall i, j, k :: 0 <= i < |root.describes| && 0 <= j < |root.describes[i].tests| && 0 <= k < |root.describes[i].tests[j].name|
      ==> IsIdentContinue(root.describes[i].tests[j].name[k])
  }

  /**
   * Lowering a parsed root succeeds exactly when every character of every
   * sanitized test name may continue an identifier; otherwise `Ident::new`
   * panics on the first offending function name.
   */
  lemma ExpansionSucceedsIff(input: seq<DescribeTokens>, root: Root)
    requires RootSpec(input) == Success(root)
    ensures GenerateRoot(root).Success? <==> TestNamesAreIdentTails(root)
  {
    RootParsed(input);
    forall i, j | 0 <= i < |root.describes| && 0 <= j < |root.describes[i].tests|
      ensures IsIdent(FnName(root.describes[i].tests[j].name))
              <==> forall k :: 0 <= k < |root.describes[i].tests[j].name| ==> IsIdentContinue(root.describes[i].tests[j].name[k])
    {
      FnNameIsIdent(root.describes[i].tests[j].name);
    }
  }

  /** Every describe block of a parsed input has a header, and every item of its body parses. */
  lemma BodyParses(input: seq<DescribeTokens>, root: Root, i: nat)
    requires RootSpec(input) == Success(root) && i < |input|
    ensures HasHeader(input[i]) && AllItemsParse(BodyOf(input, i))
  {
    RootParsed(input);
    DescribeSucceedsIff(input[i]);
  }

  /** Items `a` and `b` of a module are two functions both called `name`. */
  predicate SameFnName(items: seq<OutItem>, a: int, b: int, name: string) {
    1 <= a < b < |items| && items[a].Fn? && items[b].Fn? && items[a].name == name && items[b].name == name
  }

  /**
   * Two `test` items of one describe whose labels sanitize to the same name
   * become two functions with the same name in the same module: nothing in
   * parsing or lowering detects the collision.
   */
  lemma CollidingLabelsCollide(input: seq<DescribeTokens>, root: Root, out: OutItem, i: nat, p: nat, q: nat)
    returns (a: nat, b: nat)
    requires RootSpec(input) == Success(root) && GenerateRoot(root) == Success(out)
    requires i < |input| && HasHeader(input[i])
    requires p < q < |BodyOf(input, i)|
    requires BodyOf(input, i)[p].TestItem? && BodyOf(input, i)[q].TestItem?
    requires BodyOf(input, i)[p].title.Some? && BodyOf(input, i)[q].title.Some?
    requires TestLabel(BodyOf(input, i)[p].title.value) == TestLabel(BodyOf(input, i)[q].title.value)
    ensures out.Module? && i + 1 < |out.items| && out.items[i + 1].Module?
    ensures SameFnName(out.items[i + 1].items, a, b, "test_" + TestLabel(BodyOf(input, i)[p].title.value))
  {
    var items := BodyOf(input, i);
    var name := TestLabel(items[p].title.value);
    BodyParses(input, root, i);
    assert ItemParses(items[p]) && ItemParses(items[q]);
    var tests := TestsOf(items);
    var ip, iq := |TestsOf(items[..p])|, |TestsOf(items[..q])|;
    assert ip < iq <= |tests| && tests[ip].name == name by {
      TestIndexOfItem(items, p, q);
    }
    assert iq < |tests| && tests[iq].name == name by {
      TestIndexOfItem(items, q, |items|);
    }
    ExpandedTest(input, root, out, i, ip);
    ExpandedTest(input, root, out, i, iq);
    a, b := ip + 1, iq + 1;
  }
}
