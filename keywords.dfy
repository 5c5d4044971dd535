/**
 * The parsers of the macro input: the root loop over describe blocks, the
 * describe parser with its keyword dispatch and duplicate checks, and the
 * leaf parsers for tests and hooks. The two loops are methods, each proved
 * equal to a function that folds the same steps over the input.
 */
module Keywords {
  import opened Wrappers
  import opened Labels
  import opened Tokens
  import opened Ast
  import opened Generate

  // Leaf parsers.

  /** `SetupAll::parse`, `Setup::parse`, `Teardown::parse`, `TeardownAll::parse`: the keyword, then a block. */
  function ParseHook(kind: HookKind, block: BlockTokens): (r: Result<Hook, Failure>)
    ensures r.Success? <==> block.Block?
    ensures r.Success? ==> r.value.kind == kind && r.value.content == block.body
    ensures r.Failure? ==> r.error == Syntax(BadBody)
  {
    match block
    case Block(body) => Success(Hook(kind, body))
    case BadBlock => Failure(Syntax(BadBody))
  }

  /** `Test::parse`: the keyword, a string literal whose sanitized value names the test, then a block. */
  function ParseTest(title: Option<string>, block: BlockTokens): (r: Result<Test, Failure>)
    ensures r.Success? <==> title.Some? && block.Block?
    ensures r.Success? ==> r.value.name == TestLabel(title.value) && r.value.content == block.body
    ensures r.Success? ==> TestLabel(r.value.name) == r.value.name
    ensures title.None? ==> r == Failure(Syntax(ExpectedString))
    ensures title.Some? && block.BadBlock? ==> r == Failure(Syntax(BadBody))
  {
    if title.None? then Failure(Syntax(ExpectedString))
    else match block
      case BadBlock => Failure(Syntax(BadBody))
      case Block(body) =>
        TestLabelIdempotent(title.value);
        Success(Test(TestLabel(title.value), body))
  }

  // The describe body: one step per item, folded over the body.

  /** The loop state of the describe parser: one optional slot per accepted hook, and the tests so far. */
  datatype Slots = Slots(setupAll: Option<Hook>, setup: Option<Hook>, teardown: Option<Hook>, tests: seq<Test>)

  const NoSlots := Slots(None, None, None, [])

  /** `slot.replace(contents.parse()?)` followed by the "At most one" check. */
  function FillSlot(slot: Option<Hook>, kind: HookKind, block: BlockTokens): (r: Result<Hook, Failure>) {
    var h :- ParseHook(kind, block);
    if slot.Some? then Failure(Syntax(Duplicate(kind))) else Success(h)
  }

  /** One turn of the dispatch loop: peek the leading keyword and parse the item it starts. */
  function Step(st: Slots, item: Item): (r: Result<Slots, Failure>) {
    match item
    case SetupAllItem(b) =>
      var h :- FillSlot(st.setupAll, SetupAllHook, b);
      Success(st.(setupAll := Some(h)))
    case SetupItem(b) =>
      var h :- FillSlot(st.setup, SetupHook, b);
      Success(st.(setup := Some(h)))
    case TeardownItem(b) =>
      var h :- FillSlot(st.teardown, TeardownHook, b);
      Success(st.(teardown := Some(h)))
    case TestItem(title, b) =>
      var t :- ParseTest(title, b);
      Success(st.(tests := st.tests + [t]))
    case TeardownAllItem(_) => Failure(Syntax(UnexpectedToken))
    case OtherItem => Failure(Syntax(UnexpectedToken))
  }

  /** The dispatch loop run over the rest of a body from a given state. */
  function Scan(st: Slots, items: seq<Item>): (r: Result<Slots, Failure>)
    decreases |items|
  {
    if items == [] then Success(st)
    else
      var next :- Step(st, items[0]);
      Scan(next, items[1..])
  }

  /** The stream `generate()` gives for an optional hook: empty when absent. */
  function HookStream(h: Option<Hook>): (r: Result<seq<OutItem>, Failure>) {
    match h
    case None => Success([])
    case Some(hook) => GenerateHook(hook)
  }

  /** `Describe::parse`, as a function of the describe's tokens. */
  function DescribeSpec(d: DescribeTokens): (r: Result<Describe, Failure>) {
    if d.head.None? then Failure(Syntax(ExpectedIdent))
    else if d.title.None? then Failure(Syntax(ExpectedString))
    else if d.contents.None? then Failure(Syntax(ExpectedBraces))
    else
      var slots :- Scan(NoSlots, d.contents.value);
      var setupAll :- HookStream(slots.setupAll);
      var setup :- HookStream(slots.setup);
      var teardown :- HookStream(slots.teardown);
      var name := DescribeLabel(d.title.value);
      if !IsIdent(name) then Failure(NotAnIdent(name))
      else Success(Describe(name, setupAll, setup, slots.tests, [], teardown))
  }

  /** `Describe::parse`: the header, then the dispatch loop over the braced body, then the hook streams. */
  method ParseDescribe(d: DescribeTokens) returns (r: Result<Describe, Failure>)
    ensures r == DescribeSpec(d)
  {
    if d.head.None? {
      return Failure(Syntax(ExpectedIdent));
    }
    if d.title.None? {
      return Failure(Syntax(ExpectedString));
    }
    var name := DescribeLabel(d.title.value);
    if d.contents.None? {
      return Failure(Syntax(ExpectedBraces));
    }
    var contents := d.contents.value;

    var setupAll: Option<Hook> := None;
    var setup: Option<Hook> := None;
    var teardown: Option<Hook> := None;
    var tests: seq<Test> := [];
    var i := 0;
    while i < |contents|
      invariant 0 <= i <= |contents|
      invariant Scan(NoSlots, contents) == Scan(Slots(setupAll, setup, teardown, tests), contents[i..])
    {
      assert contents[i..][0] == contents[i] && contents[i..][1..] == contents[i + 1..];
      match contents[i] {
      case SetupAllItem(b) =>
        var parsed := ParseHook(SetupAllHook, b);
        if parsed.Failure? {
          return Failure(parsed.error);
        }
        var prev := setupAll;
        setupAll := Some(parsed.value);
        if prev.Some? {
          return Failure(Syntax(Duplicate(SetupAllHook)));
        }
      case SetupItem(b) =>
        var parsed := ParseHook(SetupHook, b);
        if parsed.Failure? {
          return Failure(parsed.error);
        }
        var prev := setup;
        setup := Some(parsed.value);
        if prev.Some? {
          return Failure(Syntax(Duplicate(SetupHook)));
        }
      case TeardownItem(b) =>
        var parsed := ParseHook(TeardownHook, b);
        if parsed.Failure? {
          return Failure(parsed.error);
        }
        var prev := teardown;
        teardown := Some(parsed.value);
        if prev.Some? {
          return Failure(Syntax(Duplicate(TeardownHook)));
        }
      case TestItem(title, b) =>
        var parsed := ParseTest(title, b);
        if parsed.Failure? {
          return Failure(parsed.error);
        }
        tests := tests + [parsed.value];
      case TeardownAllItem(_) =>
        return Failure(Syntax(UnexpectedToken));
      case OtherItem =>
        return Failure(Syntax(UnexpectedToken));
      }
      i := i + 1;
    }

    var setupAllStream := HookStream(setupAll);
    if setupAllStream.Failure? {
      return Failure(setupAllStream.error);
    }
    var setupStream := HookStream(setup);
    if setupStream.Failure? {
      return Failure(setupStream.error);
    }
    var teardownStream := HookStream(teardown);
    if teardownStream.Failure? {
      return Failure(teardownStream.error);
    }
    if !IsIdent(name) {
      return Failure(NotAnIdent(name));
    }
    return Success(Describe(name, setupAllStream.value, setupStream.value, tests, [], teardownStream.value));
  }

  // The root: describe blocks until the input is exhausted.

  /** The describe blocks of the input, parsed in order; the first failure aborts. */
  function ParseDescribes(input: seq<DescribeTokens>): (r: Result<seq<Describe>, Failure>)
    ensures r.Success? <==> forall i :: 0 <= i < |input| ==> DescribeSpec(input[i]).Success?
    ensures r.Success? ==> |r.value| == |input| && forall i :: 0 <= i < |input| ==> DescribeSpec(input[i]) == Success(r.value[i])
    ensures r.Failure? ==> exists i :: 0 <= i < |input| && DescribeSpec(input[i]) == Failure(r.error)
                                     && forall j :: 0 <= j < i ==> DescribeSpec(input[j]).Success?
  {
    if input == [] then Success([])
    else
      var d :- DescribeSpec(input[0]);
      var rest := ParseDescribes(input[1..]);
      if rest.Failure? then
        assert exists i :: 0 <= i < |input| && DescribeSpec(input[i]) == Failure(rest.error)
                           && forall j :: 0 <= j < i ==> DescribeSpec(input[j]).Success? by {
          var k :| 0 <= k < |input| - 1 && DescribeSpec(input[1..][k]) == Failure(rest.error)
                   && forall j :: 0 <= j < k ==> DescribeSpec(input[1..][j]).Success?;
          assert forall j :: 1 <= j < k + 1 ==> input[j] == input[1..][j - 1];
        }
        Failure(rest.error)
      else
        Success([d] + rest.value)
  }

  /** `Root::parse`, as a function of the input. */
  function RootSpec(input: seq<DescribeTokens>): (r: Result<Root, Failure>) {
    var describes :- ParseDescribes(input);
    Success(Root("tests", describes))
  }

  /** `Root::parse`: push describe blocks while input remains, then name the root `tests`. */
  method ParseRoot(input: seq<DescribeTokens>) returns (r: Result<Root, Failure>)
    ensures r == RootSpec(input)
  {
    var describes: seq<Describe> := [];
    var i := 0;
    while i < |input|
      invariant 0 <= i <= |input| && |describes| == i
      invariant forall j :: 0 <= j < i ==> DescribeSpec(input[j]) == Success(describes[j])
    {
      var d := ParseDescribe(input[i]);
      if d.Failure? {
        return Failure(d.error);
      }
      describes := describes + [d.value];
      i := i + 1;
    }
    ghost var all := ParseDescribes(input);
    assert all.Success?;
    assert all.value == describes;
    return Success(Root("tests", describes));
  }

  // What the describe parser accepts and what it builds.

  /** The hook kind of an item the dispatch loop accepts as a hook; `teardown_all` is not one. */
  function HookKindOf(item: Item): (r: Option<HookKind>) {
    match item
    case SetupAllItem(_) => Some(SetupAllHook)
    case SetupItem(_) => Some(SetupHook)
    case TeardownItem(_) => Some(TeardownHook)
    case _ => None
  }

  /** An item the dispatch loop can parse on its own: an accepted keyword with its label and a good block. */
  predicate ItemParses(item: Item) {
    match item
    case SetupAllItem(b) => b.Block?
    case SetupItem(b) => b.Block?
    case TeardownItem(b) => b.Block?
    case TestItem(title, b) => title.Some? && b.Block?
    case TeardownAllItem(_) => false
    case OtherItem => false
  }

  predicate AllItemsParse(items: seq<Item>) {
    forall i :: 0 <= i < |items| ==> ItemParses(items[i])
  }

  /** How many items of a body are hooks of the given kind. */
  function Count(items: seq<Item>, kind: HookKind): (r: nat) {
    if items == [] then 0
    else (if HookKindOf(items[0]) == Some(kind) then 1 else 0) + Count(items[1..], kind)
  }

  function SlotOf(st: Slots, kind: HookKind): (r: Option<Hook>) {
    match kind
    case SetupAllHook => st.setupAll
    case SetupHook => st.setup
    case TeardownHook => st.teardown
    case TeardownAllHook => None
  }

  /** Each slot holds a hook of its own kind. */
  predicate SlotsKinded(st: Slots) {
    forall kind :: SlotOf(st, kind).Some? ==> SlotOf(st, kind).value.kind == kind
  }

  /** How many more hooks of a kind the state admits. */
  function Room(st: Slots, kind: HookKind): (r: nat) {
    if SlotOf(st, kind).Some? then 0 else 1
  }

  predicate FitsSlots(st: Slots, items: seq<Item>) {
    forall kind :: Count(items, kind) <= Room(st, kind)
  }

  /** The test an item contributes, if it is a well-formed test item. */
  function TestOfItem(item: Item): (r: seq<Test>) {
    match item
    case TestItem(Some(title), Block(body)) => [Test(TestLabel(title), body)]
    case _ => []
  }

  /** The tests of a body, in source order, whatever other items surround them. */
  function TestsOf(items: seq<Item>): (r: seq<Test>) {
    if items == [] then [] else TestOfItem(items[0]) + TestsOf(items[1..])
  }

  lemma StepEffect(st: Slots, item: Item, next: Slots)
    requires Step(st, item) == Success(next)
    ensures ItemParses(item)
    ensures next.tests == st.tests + TestOfItem(item)
    ensures forall kind :: SlotOf(next, kind).Some? <==> SlotOf(st, kind).Some? || HookKindOf(item) == Some(kind)
    ensures forall kind :: Room(st, kind) == Room(next, kind) + (if HookKindOf(item) == Some(kind) then 1 else 0)
    ensures SlotsKinded(st) ==> SlotsKinded(next)
  {
  }

  lemma StepFails(st: Slots, item: Item)
    requires Step(st, item).Failure?
    ensures !ItemParses(item) || exists kind :: HookKindOf(item) == Some(kind) && SlotOf(st, kind).Some?
  {
    if ItemParses(item) {
      match item
      case SetupAllItem(_) => assert SlotOf(st, SetupAllHook).Some?;
      case SetupItem(_) => assert SlotOf(st, SetupHook).Some?;
      case TeardownItem(_) => assert SlotOf(st, TeardownHook).Some?;
      case TestItem(_, _) =>
    }
  }

  /**
   * The dispatch loop succeeds exactly when every item parses and no hook
   * kind occurs more often than the state still has room for.
   */
  lemma {:induction false} ScanSucceedsIff(st: Slots, items: seq<Item>)
    ensures Scan(st, items).Success? <==> AllItemsParse(items) && FitsSlots(st, items)
    decreases |items|
  {
    if items != [] {
      var item, rest := items[0], items[1..];
      assert forall kind :: Count(items, kind) == (if HookKindOf(item) == Some(kind) then 1 else 0) + Count(rest, kind);
      match Step(st, item)
      case Failure(_) =>
        StepFails(st, item);
        if ItemParses(item) {
          var kind :| HookKindOf(item) == Some(kind) && SlotOf(st, kind).Some?;
          assert Count(items, kind) > Room(st, kind);
        }
      case Success(next) =>
        StepEffect(st, item, next);
        ScanSucceedsIff(next, rest);
        assert AllItemsParse(items) <==> AllItemsParse(rest) by {
          assert forall i :: 1 <= i < |items| ==> items[i] == rest[i - 1];
        }
    }
  }

  /** On success, the loop has appended exactly the body's tests and filled exactly the slots whose hooks occur. */
  lemma {:induction false} ScanEffect(st: Slots, items: seq<Item>, last: Slots)
    requires Scan(st, items) == Success(last)
    ensures SlotsKinded(st) ==> SlotsKinded(last)
    ensures last.tests == st.tests + TestsOf(items)
    ensures forall kind :: SlotOf(last, kind).Some? <==> SlotOf(st, kind).Some? || Count(items, kind) > 0
    decreases |items|
  {
    if items != [] {
      var next := Step(st, items[0]).value;
      StepEffect(st, items[0], next);
      ScanEffect(next, items[1..], last);
    }
  }

  /** Running the loop over a concatenation runs it over each part in turn. */
  lemma {:induction false} ScanAppend(st: Slots, a: seq<Item>, b: seq<Item>)
    ensures Scan(st, a + b) == match Scan(st, a)
                               case Success(mid) => Scan(mid, b)
                               case Failure(e) => Failure(e)
    decreases |a|
  {
    if a != [] {
      assert (a + b)[0] == a[0] && (a + b)[1..] == a[1..] + b;
      match Step(st, a[0])
      case Failure(_) =>
      case Success(next) => ScanAppend(next, a[1..], b);
    } else {
      assert a + b == b;
    }
  }

  /** The body of a describe whose header is complete. */
  predicate HasHeader(d: DescribeTokens) {
    d.head.Some? && d.title.Some? && d.contents.Some?
  }

  /**
   * A hook item of a kind already seen, reached with every item before it
   * accepted, fails the describe with that kind's "At most one" error.
   */
  lemma DuplicateReported(d: DescribeTokens, j: nat, kind: HookKind)
    requires HasHeader(d) && j < |d.contents.value|
    requires Scan(NoSlots, d.contents.value[..j]).Success?
    requires HookKindOf(d.contents.value[j]) == Some(kind) && d.contents.value[j].block.Block?
    requires Count(d.contents.value[..j], kind) > 0
    ensures DescribeSpec(d) == Failure(Syntax(Duplicate(kind)))
  {
    var items := d.contents.value;
    assert items == items[..j] + items[j..];
    ScanAppend(NoSlots, items[..j], items[j..]);
    var mid := Scan(NoSlots, items[..j]).value;
    ScanEffect(NoSlots, items[..j], mid);
    assert items[j..][0] == items[j];
  }

  /**
   * An item whose leading token is not one of `setup_all`, `setup`,
   * `teardown`, `test` (`teardown_all` included), reached with every item
   * before it accepted, fails the describe with the lookahead error.
   */
  lemma UnexpectedReported(d: DescribeTokens, j: nat)
    requires HasHeader(d) && j < |d.contents.value|
    requires Scan(NoSlots, d.contents.value[..j]).Success?
    requires d.contents.value[j].OtherItem? || d.contents.value[j].TeardownAllItem?
    ensures DescribeSpec(d) == Failure(Syntax(UnexpectedToken))
  {
    var items := d.contents.value;
    assert items == items[..j] + items[j..];
    ScanAppend(NoSlots, items[..j], items[j..]);
    assert items[j..][0] == items[j];
  }

  lemma {:induction false} CountPositions(items: seq<Item>, i: nat, j: nat, kind: HookKind)
    requires i < j < |items| && HookKindOf(items[i]) == Some(kind) && HookKindOf(items[j]) == Some(kind)
    ensures Count(items, kind) >= 2
  {
    if i == 0 {
      CountPosition(items[1..], j - 1, kind);
    } else {
      CountPositions(items[1..], i - 1, j - 1, kind);
    }
  }

  lemma {:induction false} CountPosition(items: seq<Item>, j: nat, kind: HookKind)
    requires j < |items| && HookKindOf(items[j]) == Some(kind)
    ensures Count(items, kind) >= 1
  {
    if j > 0 {
      CountPosition(items[1..], j - 1, kind);
    }
  }

  /** Two `setup_all`, two `setup` or two `teardown` blocks anywhere in one body: no describe is produced. */
  lemma DuplicateRejected(d: DescribeTokens, i: nat, j: nat, kind: HookKind)
    requires HasHeader(d) && i < j < |d.contents.value|
    requires HookKindOf(d.contents.value[i]) == Some(kind) && HookKindOf(d.contents.value[j]) == Some(kind)
    ensures DescribeSpec(d).Failure?
  {
    CountPositions(d.contents.value, i, j, kind);
    ScanSucceedsIff(NoSlots, d.contents.value);
  }

  /** A body item with any other leading token, `teardown_all` included, means no describe is produced. */
  lemma UnexpectedRejected(d: DescribeTokens, j: nat)
    requires HasHeader(d) && j < |d.contents.value|
    requires d.contents.value[j].OtherItem? || d.contents.value[j].TeardownAllItem?
    ensures DescribeSpec(d).Failure?
  {
    ScanSucceedsIff(NoSlots, d.contents.value);
    assert !ItemParses(d.contents.value[j]);
  }

  /** The body holds no `setup_all`, `setup` or `teardown` block. */
  predicate NoHooks(items: seq<Item>) {
    Count(items, SetupAllHook) == 0 && Count(items, SetupHook) == 0 && Count(items, TeardownHook) == 0
  }

  /** The first hook kind whose stream is generated: `setup_all`, then `setup`, then `teardown`. */
  function FirstHookKind(items: seq<Item>): (r: HookKind) {
    if Count(items, SetupAllHook) > 0 then SetupAllHook
    else if Count(items, SetupHook) > 0 then SetupHook
    else TeardownHook
  }

  /**
   * A body that is accepted but holds a hook cannot be lowered: generating the
   * hook's stream fails, so no describe is produced.
   */
  lemma HookLoweringFails(d: DescribeTokens)
    requires HasHeader(d) && Scan(NoSlots, d.contents.value).Success?
    requires !NoHooks(d.contents.value)
    ensures DescribeSpec(d) == Failure(HookUnimplemented(FirstHookKind(d.contents.value)))
  {
    var items := d.contents.value;
    var slots := Scan(NoSlots, items).value;
    assert SlotsKinded(NoSlots);
    ScanEffect(NoSlots, items, slots);
    assert slots.setupAll.Some? <==> Count(items, SetupAllHook) > 0 by { assert SlotOf(slots, SetupAllHook) == slots.setupAll; }
    assert slots.setup.Some? <==> Count(items, SetupHook) > 0 by { assert SlotOf(slots, SetupHook) == slots.setup; }
    assert slots.teardown.Some? <==> Count(items, TeardownHook) > 0 by { assert SlotOf(slots, TeardownHook) == slots.teardown; }
    assert slots.setupAll.Some? ==> slots.setupAll.value.kind == SetupAllHook by { assert SlotOf(slots, SetupAllHook) == slots.setupAll; }
    assert slots.setup.Some? ==> slots.setup.value.kind == SetupHook by { assert SlotOf(slots, SetupHook) == slots.setup; }
    assert slots.teardown.Some? ==> slots.teardown.value.kind == TeardownHook by { assert SlotOf(slots, TeardownHook) == slots.teardown; }
  }

  /**
   * A describe is produced exactly when its header is complete, every body
   * item parses, the body holds no hook at all, and the sanitized label is an
   * identifier.
   */
  lemma DescribeSucceedsIff(d: DescribeTokens)
    ensures DescribeSpec(d).Success? <==>
      && HasHeader(d)
      && AllItemsParse(d.contents.value)
      && NoHooks(d.contents.value)
      && IsIdent(DescribeLabel(d.title.value))
  {
    if HasHeader(d) {
      var items := d.contents.value;
      if AllItemsParse(items) && NoHooks(items) {
        CountTeardownAll(items);
        assert FitsSlots(NoSlots, items);
      }
      ScanSucceedsIff(NoSlots, items);
      if Scan(NoSlots, items).Success? {
        var slots := Scan(NoSlots, items).value;
        ScanEffect(NoSlots, items, slots);
        assert slots.setupAll.Some? <==> Count(items, SetupAllHook) > 0 by { assert SlotOf(slots, SetupAllHook) == slots.setupAll; }
        assert slots.setup.Some? <==> Count(items, SetupHook) > 0 by { assert SlotOf(slots, SetupHook) == slots.setup; }
        assert slots.teardown.Some? <==> Count(items, TeardownHook) > 0 by { assert SlotOf(slots, TeardownHook) == slots.teardown; }
      }
    }
  }

  /** `teardown_all` is never counted as an accepted hook. */
  lemma {:induction false} CountTeardownAll(items: seq<Item>)
    ensures Count(items, TeardownAllHook) == 0
  {
    if items != [] {
      CountTeardownAll(items[1..]);
    }
  }

  lemma {:induction false} TestsOfSanitized(items: seq<Item>)
    ensures forall i :: 0 <= i < |TestsOf(items)| ==> TestLabel(TestsOf(items)[i].name) == TestsOf(items)[i].name
  {
    if items != [] {
      TestsOfSanitized(items[1..]);
      match items[0]
      case TestItem(Some(title), Block(_)) => TestLabelIdempotent(title);
      case _ =>
    }
  }

  /**
   * A produced describe is named by the sanitized label, holds exactly the
   * body's tests in source order, and all its hook streams (`teardown_all`
   * included) are empty.
   */
  lemma DescribeParsed(d: DescribeTokens, desc: Describe)
    requires DescribeSpec(d) == Success(desc)
    ensures HasHeader(d)
    ensures desc.ident == DescribeLabel(d.title.value)
    ensures desc.tests == TestsOf(d.contents.value)
    ensures desc.setupAll == [] && desc.setup == [] && desc.teardownAll == [] && desc.teardown == []
    ensures ParsedDescribe(desc)
  {
    var items := d.contents.value;
    ScanEffect(NoSlots, items, Scan(NoSlots, items).value);
    TestsOfSanitized(items);
  }

  /**
   * `Root::parse` succeeds exactly when every describe block does; then the
   * root is named `tests` and holds one describe per block, in input order.
   */
  lemma RootParsed(input: seq<DescribeTokens>)
    ensures RootSpec(input).Success? <==> forall i :: 0 <= i < |input| ==> DescribeSpec(input[i]).Success?
    ensures RootSpec(input).Success? ==>
      && RootSpec(input).value.ident == "tests"
      && |RootSpec(input).value.describes| == |input|
      && (forall i :: 0 <= i < |input| ==> DescribeSpec(input[i]) == Success(RootSpec(input).value.describes[i]))
      && ParsedRoot(RootSpec(input).value)
    ensures RootSpec(input).Failure? ==>
      exists i :: 0 <= i < |input| && DescribeSpec(input[i]) == Failure(RootSpec(input).error)
                  && forall j :: 0 <= j < i ==> DescribeSpec(input[j]).Success?
  {
    if RootSpec(input).Success? {
      var ds := RootSpec(input).value.describes;
      forall i | 0 <= i < |input| ensures ParsedDescribe(ds[i]) {
        DescribeParsed(input[i], ds[i]);
      }
    }
  }

  /** The tests of a concatenated body are the tests of each part. */
  lemma {:induction false} TestsOfAppend(a: seq<Item>, b: seq<Item>)
    ensures TestsOf(a + b) == TestsOf(a) + TestsOf(b)
  {
    if a != [] {
      assert (a + b)[0] == a[0] && (a + b)[1..] == a[1..] + b;
      TestsOfAppend(a[1..], b);
    } else {
      assert a + b == b;
    }
  }

  /**
   * A well-formed `test` item at position `p` yields the test at index
   * `|TestsOf(items[..p])|` of the body's tests, and a later item's test
   * comes after it.
   */
  lemma TestIndexOfItem(items: seq<Item>, p: nat, q: nat)
    requires p < q <= |items| && ItemParses(items[p]) && items[p].TestItem?
    ensures |TestsOf(items[..p])| < |TestsOf(items[..q])| <= |TestsOf(items)|
    ensures TestsOf(items)[|TestsOf(items[..p])|] == Test(TestLabel(items[p].title.value), items[p].block.body)
  {
    assert items[..q] == items[..p] + items[p..q];
    TestsOfAppend(items[..p], items[p..q]);
    assert items[p..q][0] == items[p];
    assert items == items[..q] + items[q..];
    TestsOfAppend(items[..q], items[q..]);
  }
}
