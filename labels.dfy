/**
 * The two label sanitizers that the parsers apply to the string literal after
 * `describe` and after `test`. Both are chains of `to_lowercase` and `replace`
 * on the label; lowering is modelled for ASCII letters only.
 */
module Labels {

  predicate IsUpper(c: char) {
    'A' <= c <= 'Z'
  }

  /** `to_lowercase` on one character, restricted to ASCII letters. */
  function LowerChar(c: char): (r: char)
    ensures !IsUpper(r)
    ensures IsUpper(c) ==> r as int == c as int + 32
    ensures !IsUpper(c) ==> r == c
  {
    if IsUpper(c) then (c as int + 32) as char else c
  }

  /** `str::to_lowercase`, character by character. */
  function Lower(s: string): (r: string) {
    seq(|s|, i requires 0 <= i < |s| => LowerChar(s[i]))
  }

  /** `str::replace(from, to)` for one-character patterns. */
  function Replace(s: string, from: char, to: char): (r: string) {
    seq(|s|, i requires 0 <= i < |s| => if s[i] == from then to else s[i])
  }

  /** `str::replace(c, "")`: every occurrence of `c` removed, the rest kept in order. */
  function Delete(s: string, c: char): (r: string)
    ensures |r| <= |s|
    ensures forall x :: x in r <==> x in s && x != c
  {
    if s == [] then [] else (if s[0] == c then [] else [s[0]]) + Delete(s[1..], c)
  }

  predicate IsDescribeSeparator(c: char) {
    c == ' ' || c == '/' || c == ':'
  }

  /**
   * The describe-label sanitizer: lowercase, then ' ', '/' and ':' each
   * become '_'. The result names the describe's module.
   */
  function DescribeLabel(raw: string): (r: string)
    ensures |r| == |raw|
    ensures forall i :: 0 <= i < |r| ==> !IsUpper(r[i]) && !IsDescribeSeparator(r[i])
    ensures forall i :: 0 <= i < |r| ==> IsDescribeSeparator(raw[i]) ==> r[i] == '_'
    ensures forall i :: 0 <= i < |r| ==> !IsDescribeSeparator(raw[i]) ==> r[i] == LowerChar(raw[i])
  {
    Replace(Replace(Replace(Lower(raw), ' ', '_'), '/', '_'), ':', '_')
  }

  /** Sanitizing a describe label twice gives what sanitizing it once gives. */
  lemma DescribeLabelIdempotent(raw: string)
    ensures DescribeLabel(DescribeLabel(raw)) == DescribeLabel(raw)
  {
    var once := DescribeLabel(raw);
    var twice := DescribeLabel(once);
    forall i | 0 <= i < |once| ensures twice[i] == once[i] {
      assert !IsDescribeSeparator(once[i]) && !IsUpper(once[i]);
    }
  }

  /** Sanitizing a concatenation of describe labels sanitizes each part separately. */
  lemma DescribeLabelAppend(a: string, b: string)
    ensures DescribeLabel(a + b) == DescribeLabel(a) + DescribeLabel(b)
  {
    var whole, left, right := DescribeLabel(a + b), DescribeLabel(a), DescribeLabel(b);
    forall i | 0 <= i < |whole| ensures whole[i] == (left + right)[i] {
      if i < |a| { assert (a + b)[i] == a[i]; } else { assert (a + b)[i] == b[i - |a|]; }
    }
  }

  /** A character the test-label sanitizer leaves as it is. */
  predicate IsTestNameChar(c: char) {
    !IsUpper(c) && c != ' ' && c != ':'
  }

  /**
   * The test-label sanitizer: lowercase, ' ' becomes '_', ':' is deleted.
   * The same chain re-applied during lowering builds the function name.
   */
  function TestLabel(raw: string): (r: string)
    ensures |r| <= |raw|
    ensures forall i :: 0 <= i < |r| ==> IsTestNameChar(r[i])
  {
    var t := Delete(Replace(Lower(raw), ' ', '_'), ':');
    assert forall i :: 0 <= i < |t| ==> t[i] in Replace(Lower(raw), ' ', '_');
    t
  }

  /** What one input character becomes in a sanitized test label. */
  function TestChar(c: char): (r: string) {
    if c == ':' then "" else if c == ' ' then "_" else [LowerChar(c)]
  }

  /** Reference definition of the test-label sanitizer, one character at a time. */
  function TestLabelRef(raw: string): (r: string) {
    if raw == [] then [] else TestChar(raw[0]) + TestLabelRef(raw[1..])
  }

  /** The sanitizer chain equals the character-wise reference definition. */
  lemma {:induction false} TestLabelIsCharwise(raw: string)
    ensures TestLabel(raw) == TestLabelRef(raw)
  {
    if raw != [] {
      TestLabelIsCharwise(raw[1..]);
      var u := Replace(Lower(raw), ' ', '_');
      assert u[1..] == Replace(Lower(raw[1..]), ' ', '_');
      assert Delete(u, ':') == (if u[0] == ':' then [] else [u[0]]) + Delete(u[1..], ':');
    }
  }

  lemma {:induction false} TestLabelRefAppend(a: string, b: string)
    ensures TestLabelRef(a + b) == TestLabelRef(a) + TestLabelRef(b)
  {
    if a != [] {
      assert (a + b)[1..] == a[1..] + b;
      TestLabelRefAppend(a[1..], b);
    } else {
      assert a + b == b;
    }
  }

  /** Sanitizing a concatenation sanitizes each part separately. */
  lemma TestLabelAppend(a: string, b: string)
    ensures TestLabel(a + b) == TestLabel(a) + TestLabel(b)
  {
    TestLabelIsCharwise(a + b);
    TestLabelIsCharwise(a);
    TestLabelIsCharwise(b);
    TestLabelRefAppend(a, b);
  }

  /** A label made only of characters the sanitizer keeps is its own sanitized form. */
  lemma {:induction false} TestLabelFixes(name: string)
    requires forall i :: 0 <= i < |name| ==> IsTestNameChar(name[i])
    ensures TestLabel(name) == name
  {
    TestLabelIsCharwise(name);
    TestLabelRefFixes(name);
  }

  lemma {:induction false} TestLabelRefFixes(name: string)
    requires forall i :: 0 <= i < |name| ==> IsTestNameChar(name[i])
    ensures TestLabelRef(name) == name
  {
    if name != [] {
      TestLabelRefFixes(name[1..]);
      assert TestChar(name[0]) == [name[0]];
    }
  }

  /** Sanitizing a test label twice gives what sanitizing it once gives. */
  lemma TestLabelIdempotent(raw: string)
    ensures TestLabel(TestLabel(raw)) == TestLabel(raw)
  {
    TestLabelFixes(TestLabel(raw));
  }

  /** Splits a sanitized concatenation of three parts. */
  lemma TestLabelRefAppend3(a: string, b: string, c: string)
    ensures TestLabelRef(a + b + c) == TestLabelRef(a) + TestLabelRef(b) + TestLabelRef(c)
  {
    TestLabelRefAppend(a + b, c);
    TestLabelRefAppend(a, b);
  }

  lemma TestLabelRefSingle(c: char)
    ensures TestLabelRef([c]) == TestChar(c)
  {
  }

  /** A space followed by a word of kept characters sanitizes to '_' and the word. */
  lemma TestLabelRefSpaceWord(w: string)
    requires forall i :: 0 <= i < |w| ==> IsTestNameChar(w[i])
    ensures TestLabelRef([' '] + w) == "_" + w
  {
    TestLabelRefAppend([' '], w);
    TestLabelRefSingle(' ');
    TestLabelRefFixes(w);
  }

  /** A capitalised word: its first letter is lowered and the rest is kept. */
  lemma TestLabelRefCapitalised(x: char, w: string)
    requires forall i :: 0 <= i < |w| ==> IsTestNameChar(w[i])
    ensures TestLabelRef([x] + w) == TestChar(x) + w
  {
    TestLabelRefAppend([x], w);
    TestLabelRefFixes(w);
  }

  /** A middle part that sanitizes to nothing vanishes between a kept part and the rest. */
  lemma TestLabelRefDrop(a: string, c: string, t: string)
    requires TestLabelRef(c) == []
    ensures TestLabelRef(a + c + t) == TestLabelRef(a) + TestLabelRef(t)
  {
    TestLabelRefAppend3(a, c, t);
  }

  /** A word of kept characters followed by ':' keeps the word and drops the colon. */
  lemma TestLabelRefColon(a: string, t: string)
    requires forall i :: 0 <= i < |a| ==> IsTestNameChar(a[i])
    ensures TestLabelRef(a + [':'] + t) == a + TestLabelRef(t)
  {
    TestLabelRefFixes(a);
    TestLabelRefSingle(':');
    TestLabelRefDrop(a, [':'], t);
  }

  /** A space and a capitalised word sanitize to '_' and the lowered word. */
  lemma TestLabelRefSpaceCapitalised(x: char, b: string)
    requires forall i :: 0 <= i < |b| ==> IsTestNameChar(b[i])
    requires x != ' ' && x != ':'
    ensures TestLabelRef([' '] + [x] + b) == "_" + [LowerChar(x)] + b
  {
    TestLabelRefAppend3([' '], [x], b);
    TestLabelRefFixes(b);
    TestLabelRefSingle(' ');
    TestLabelRefSingle(x);
  }

  /**
   * The shape of the documented example: "<a>: <X><b> <c> <d>" with words
   * of kept characters sanitizes to "<a>_<x><b>_<c>_<d>".
   */
  lemma TestLabelSentence(a: string, x: char, b: string, c: string, d: string)
    requires forall i :: 0 <= i < |a| ==> IsTestNameChar(a[i])
    requires forall i :: 0 <= i < |b| ==> IsTestNameChar(b[i])
    requires forall i :: 0 <= i < |c| ==> IsTestNameChar(c[i])
    requires forall i :: 0 <= i < |d| ==> IsTestNameChar(d[i])
    requires x != ' ' && x != ':'
    ensures TestLabel(a + ": " + [x] + b + " " + c + " " + d)
         == a + "_" + [LowerChar(x)] + b + "_" + c + "_" + d
  {
    var p1, p2, p3 := [' '] + [x] + b, [' '] + c, [' '] + d;
    var raw := a + ": " + [x] + b + " " + c + " " + d;
    assert raw == a + [':'] + (p1 + p2 + p3);
    TestLabelIsCharwise(raw);
    TestLabelRefColon(a, p1 + p2 + p3);
    TestLabelRefAppend3(p1, p2, p3);
    TestLabelRefSpaceCapitalised(x, b);
    TestLabelRefSpaceWord(c);
    TestLabelRefSpaceWord(d);
  }

  /** The example label from the test parser's documentation. */
  lemma TestLabelExample(raw: string)
    requires raw == "success: Add positive numbers"
    ensures TestLabel(raw) == "success_add_positive_numbers"
  {
    var a, b, c, d := "success", "dd", "positive", "numbers";
    assert raw == a + ": " + ['A'] + b + " " + c + " " + d;
    assert a + "_" + [LowerChar('A')] + b + "_" + c + "_" + d == "success_add_positive_numbers";
    TestLabelSentence(a, 'A', b, c, d);
  }

  /** "<X><b>: <c>" and "<X><b> <c>" sanitize to the same name. */
  lemma TestLabelColonDropped(x: char, b: string, c: string)
    requires forall i :: 0 <= i < |b| ==> IsTestNameChar(b[i])
    requires forall i :: 0 <= i < |c| ==> IsTestNameChar(c[i])
    ensures TestLabel([x] + b + [':'] + ([' '] + c)) == TestLabel([x] + b + ([' '] + c)) == TestChar(x) + b + "_" + c
  {
    var word, tail := [x] + b, [' '] + c;
    TestLabelRefCapitalised(x, b);
    TestLabelRefSpaceWord(c);
    assert TestLabel(word + [':'] + tail) == TestChar(x) + b + "_" + c by {
      TestLabelIsCharwise(word + [':'] + tail);
      TestLabelRefSingle(':');
      TestLabelRefDrop(word, [':'], tail);
    }
    assert TestLabel(word + tail) == TestChar(x) + b + "_" + c by {
      TestLabelIsCharwise(word + tail);
      TestLabelRefAppend(word, tail);
    }
  }

  /** Two distinct labels that sanitize to the same test name. */
  lemma TestLabelCollision(a: string, b: string)
    requires a == "Add: positive" && b == "Add positive"
    ensures a != b
    ensures TestLabel(a) == TestLabel(b) == "add_positive"
  {
    assert a[3] != b[3];
    assert a == ['A'] + "dd" + [':'] + ([' '] + "positive");
    assert b == ['A'] + "dd" + ([' '] + "positive");
    TestLabelColonDropped('A', "dd", "positive");
  }
}
