/** Java's `String.replace(CharSequence, CharSequence)`, and the facts about it the URL templates need. */
module Text {

  /**
    Replace every occurrence of `target`, scanning left to right, without
    overlap. Text without the target's first character is left alone,
    replacing the target by itself changes nothing, and a replacement of
    the target's length keeps the text's length.
  */
  function Replace(s: string, target: string, replacement: string): (r: string)
    requires |target| > 0
    ensures target[0] !in s ==> r == s
    ensures replacement == target ==> r == s
    ensures |replacement| == |target| ==> |r| == |s|
    decreases |s|
  {
    if |s| < |target| then s
    else if s[..|target|] == target then
      assert s == s[..|target|] + s[|target|..];
      replacement + Replace(s[|target|..], target, replacement)
    else
      assert s == [s[0]] + s[1..];
      [s[0]] + Replace(s[1..], target, replacement)
  }

  /** A template placeholder: `{`, then a name without braces, then `}`. */
  predicate Placeholder(x: string)
  {
    && |x| >= 2 && x[0] == '{' && x[|x| - 1] == '}'
    && forall i :: 0 < i < |x| - 1 ==> x[i] != '{' && x[i] != '}'
  }

  /** Text that does not contain the target's first character is left alone. */
  lemma {:induction false} ReplaceUntouched(s: string, target: string, replacement: string)
    requires |target| > 0 && target[0] !in s
    ensures Replace(s, target, replacement) == s
    decreases |s|
  {
    if |s| >= |target| {
      assert s[..|target|][0] == s[0];
      ReplaceUntouched(s[1..], target, replacement);
    }
  }

  /** Such text can be skipped over. */
  lemma {:induction false} ReplaceAfter(a: string, b: string, target: string, replacement: string)
    requires |target| > 0 && target[0] !in a
    ensures Replace(a + b, target, replacement) == a + Replace(b, target, replacement)
    decreases |a|
  {
    if |a| > 0 {
      var s := a + b;
      if |s| < |target| {
        assert |b| < |target|;
      } else {
        assert s[..|target|][0] == a[0];
        assert s[1..] == a[1..] + b;
        ReplaceAfter(a[1..], b, target, replacement);
      }
    } else {
      assert a + b == b;
    }
  }

  /** An occurrence at the front is replaced. */
  lemma ReplaceHere(b: string, target: string, replacement: string)
    requires |target| > 0
    ensures Replace(target + b, target, replacement) == replacement + Replace(b, target, replacement)
  {
    var s := target + b;
    assert s[..|target|] == target;
    assert s[|target|..] == b;
  }

  /** A placeholder never starts with a different placeholder. */
  lemma PlaceholderMismatch(x: string, b: string, target: string)
    requires Placeholder(x) && Placeholder(target) && x != target && |x + b| >= |target|
    ensures (x + b)[..|target|] != target
  {
    var s := x + b;
    if |target| < |x| {
      assert s[..|target|][|target| - 1] == x[|target| - 1] != target[|target| - 1];
    } else if |target| > |x| {
      assert s[..|target|][|x| - 1] == x[|x| - 1] != target[|x| - 1];
    } else {
      assert s[..|target|] == x;
    }
  }

  /** A different placeholder at the front is kept. */
  lemma ReplaceOther(x: string, b: string, target: string, replacement: string)
    requires Placeholder(x) && Placeholder(target) && x != target
    ensures Replace(x + b, target, replacement) == x + Replace(b, target, replacement)
  {
    var s := x + b;
    assert s[1..] == x[1..] + b;
    ReplaceAfter(x[1..], b, target, replacement);
    if |s| < |target| {
      assert |b| < |target|;
    } else {
      PlaceholderMismatch(x, b, target);
      assert [s[0]] + (x[1..] + Replace(b, target, replacement)) == x + Replace(b, target, replacement);
    }
  }
}
