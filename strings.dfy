/** String primitives of Python that the crawler relies on: `str.find`,
    `startswith`/`endswith`, the `in` substring test, `split`, `join` and
    `str(int)`. Strings are sequences of characters. */
module Strings {

  /** No character of `s` belongs to `cs`. */
  predicate NoneOf(s: string, cs: set<char>)
  {
    forall k :: 0 <= k < |s| ==> s[k] !in cs
  }

  // Small facts about concatenation and slicing, stated once so that the
  // proofs that use them stay cheap.

  lemma AppendAssoc(a: string, b: string, c: string)
    ensures a + b + c == a + (b + c)
  {
  }

  lemma TakeDrop(s: string, k: nat)
    requires k <= |s|
    ensures s[..k] + s[k..] == s
  {
  }

  lemma SliceOfAppend(a: string, b: string, k: nat)
    requires k <= |a|
    ensures (a + b)[..k] == a[..k]
    ensures (a + b)[k..] == a[k..] + b
  {
  }

  lemma TakeOneMore<T>(s: seq<T>, i: nat)
    requires i < |s|
    ensures s[..i + 1] == s[..i] + [s[i]]
  {
  }

  /** A concatenation avoids a set of characters exactly when both parts do. */
  lemma NoneOfAppend(a: string, b: string, cs: set<char>)
    ensures NoneOf(a + b, cs) <==> NoneOf(a, cs) && NoneOf(b, cs)
  {
    if NoneOf(a + b, cs) {
      assert forall k :: 0 <= k < |a| ==> a[k] == (a + b)[k];
      assert forall k :: 0 <= k < |b| ==> b[k] == (a + b)[|a| + k];
    }
  }

  lemma NoneOfSlice(s: string, i: nat, j: nat, cs: set<char>)
    requires NoneOf(s, cs) && i <= j <= |s|
    ensures NoneOf(s[i..j], cs)
  {
    assert forall k :: 0 <= k < j - i ==> s[i..j][k] == s[i + k];
  }

  /** `a` is a prefix of `b`. */
  predicate IsPrefix(a: string, b: string)
  {
    |a| <= |b| && b[..|a|] == a
  }

  lemma PrefixTrans(a: string, b: string, c: string)
    requires IsPrefix(a, b) && IsPrefix(b, c)
    ensures IsPrefix(a, c)
  {
    assert c[..|b|][..|a|] == c[..|a|];
  }

  lemma PrefixNotIn(a: string, b: string, x: char)
    requires IsPrefix(a, b) && x !in b
    ensures x !in a
  {
  }

  /** Index of the first character of `s` that belongs to `cs`, or `|s|`
      when there is none (Python's `str.find`, with -1 read as `|s|`). */
  function FirstOf(s: string, cs: set<char>): (i: nat)
    ensures i <= |s|
    ensures i < |s| ==> s[i] in cs
  {
    if s == [] then 0
    else if s[0] in cs then 0
    else 1 + FirstOf(s[1..], cs)
  }

  /** No character before the one FirstOf finds belongs to `cs`. */
  lemma {:induction false} FirstOfSkips(s: string, cs: set<char>)
    ensures NoneOf(s[..FirstOf(s, cs)], cs)
    decreases |s|
  {
    if s != [] && s[0] !in cs {
      FirstOfSkips(s[1..], cs);
      var j := FirstOf(s[1..], cs);
      assert s[..1 + j] == [s[0]] + s[1..][..j];
    }
  }

  /** The two facts about FirstOf determine its value. */
  lemma {:induction false} FirstOfUnique(s: string, cs: set<char>, i: nat)
    requires i <= |s| && NoneOf(s[..i], cs)
    requires i < |s| ==> s[i] in cs
    ensures FirstOf(s, cs) == i
    decreases i
  {
    if i > 0 {
      assert s[0] == s[..i][0];
      assert s[1..][..i - 1] == s[..i][1..];
      FirstOfUnique(s[1..], cs, i - 1);
    }
  }

  /** Searching a concatenation whose left part holds no character of `cs`
      continues into the right part. */
  lemma {:induction false} FirstOfAfter(a: string, b: string, cs: set<char>)
    requires NoneOf(a, cs)
    ensures FirstOf(a + b, cs) == |a| + FirstOf(b, cs)
  {
    var j := FirstOf(b, cs);
    FirstOfSkips(b, cs);
    var s := a + b;
    assert s[..|a| + j] == a + b[..j];
    if j < |b| {
      assert s[|a| + j] == b[j];
    }
    FirstOfUnique(s, cs, |a| + j);
  }

  /** Searching a concatenation whose left part holds a character of `cs`
      stops inside the left part. */
  lemma {:induction false} FirstOfWithin(a: string, b: string, cs: set<char>)
    requires FirstOf(a, cs) < |a|
    ensures FirstOf(a + b, cs) == FirstOf(a, cs)
  {
    var i := FirstOf(a, cs);
    FirstOfSkips(a, cs);
    assert (a + b)[..i] == a[..i];
    assert (a + b)[i] == a[i];
    FirstOfUnique(a + b, cs, i);
  }

  lemma {:induction false} FirstOfNone(s: string, cs: set<char>)
    requires NoneOf(s, cs)
    ensures FirstOf(s, cs) == |s|
  {
    assert s[..|s|] == s;
    FirstOfUnique(s, cs, |s|);
  }

  predicate StartsWith(s: string, prefix: string)
  {
    |prefix| <= |s| && s[..|prefix|] == prefix
  }

  predicate EndsWith(s: string, suffix: string)
  {
    |suffix| <= |s| && s[|s| - |suffix|..] == suffix
  }

  /** `str.startswith` with a tuple of prefixes. */
  predicate StartsWithAny(s: string, prefixes: seq<string>)
  {
    exists p | p in prefixes :: StartsWith(s, p)
  }

  /** `str.endswith` with a tuple of suffixes. */
  predicate EndsWithAny(s: string, suffixes: seq<string>)
  {
    exists p | p in suffixes :: EndsWith(s, p)
  }

  /** Python's substring test `t in s`, scanning `s` from the left. */
  predicate Contains(s: string, t: string)
    decreases |s|
  {
    StartsWith(s, t) || (s != [] && Contains(s[1..], t))
  }

  /** `t` occurs in `s` starting at index `i`. */
  predicate OccursAt(s: string, t: string, i: int)
  {
    0 <= i <= |s| - |t| && s[i..i + |t|] == t
  }

  /** The scan agrees with the declarative reading: `t` occurs at some
      position of `s`. */
  lemma {:induction false} ContainsIff(s: string, t: string)
    ensures Contains(s, t) <==> exists i :: OccursAt(s, t, i)
    decreases |s|
  {
    if StartsWith(s, t) {
      assert OccursAt(s, t, 0);
    } else if s != [] {
      ContainsIff(s[1..], t);
      if exists i :: OccursAt(s, t, i) {
        var i :| OccursAt(s, t, i);
        assert i != 0;
        assert OccursAt(s[1..], t, i - 1) by {
          assert s[1..][i - 1..i - 1 + |t|] == s[i..i + |t|];
        }
      }
      if Contains(s[1..], t) {
        var i :| OccursAt(s[1..], t, i);
        assert OccursAt(s, t, i + 1) by {
          assert s[i + 1..i + 1 + |t|] == s[1..][i..i + |t|];
        }
      }
    }
  }

  /** `any(t in s for t in needles)`. */
  predicate ContainsAny(s: string, needles: seq<string>)
  {
    exists t | t in needles :: Contains(s, t)
  }

  /** `s.split(c)`: the pieces between occurrences of `c`; never empty. */
  function Split(s: string, c: char): (parts: seq<string>)
    ensures |parts| >= 1
    ensures forall k :: 0 <= k < |parts| ==> c !in parts[k]
    decreases |s|
  {
    var i := FirstOf(s, {c});
    FirstOfSkips(s, {c});
    if i == |s| then
      assert s[..i] == s;
      [s]
    else
      assert c !in s[..i];
      [s[..i]] + Split(s[i + 1..], c)
  }

  /** A character that is not in the text is in none of its pieces. */
  lemma {:induction false} SplitAvoids(s: string, c: char, x: char)
    requires x !in s
    ensures forall k :: 0 <= k < |Split(s, c)| ==> x !in Split(s, c)[k]
    decreases |s|
  {
    var i := FirstOf(s, {c});
    if i < |s| {
      assert x !in s[i + 1..];
      SplitAvoids(s[i + 1..], c, x);
      assert x !in s[..i];
    } else {
      assert s[..i] == s;
    }
  }

  /** `sep.join(parts)`. */
  function JoinWith(parts: seq<string>, sep: string): string
  {
    if |parts| == 0 then ""
    else if |parts| == 1 then parts[0]
    else parts[0] + sep + JoinWith(parts[1..], sep)
  }

  /** A character in neither the pieces nor the separator is not in the
      joined text. */
  lemma {:induction false} JoinWithAvoids(parts: seq<string>, sep: string, c: char)
    requires c !in sep && forall k :: 0 <= k < |parts| ==> c !in parts[k]
    ensures c !in JoinWith(parts, sep)
    decreases |parts|
  {
    if |parts| > 1 {
      JoinWithAvoids(parts[1..], sep, c);
    }
  }

  /** Splitting a joined text on the separator gives the pieces back, as long
      as no piece holds the separator. */
  lemma {:induction false} SplitJoin(parts: seq<string>, c: char)
    requires |parts| >= 1
    requires forall k :: 0 <= k < |parts| ==> c !in parts[k]
    ensures Split(JoinWith(parts, [c]), c) == parts
  {
    var p := parts[0];
    assert NoneOf(p, {c});
    if |parts| == 1 {
      FirstOfNone(p, {c});
    } else {
      var rest := JoinWith(parts[1..], [c]);
      var s := p + [c] + rest;
      assert s == p + ([c] + rest);
      FirstOfAfter(p, [c] + rest, {c});
      assert s[..|p|] == p;
      assert s[|p| + 1..] == rest;
      SplitJoin(parts[1..], c);
    }
  }

  /** Joining the pieces of a split with the separator gives the text back. */
  lemma {:induction false} JoinSplit(s: string, c: char)
    ensures JoinWith(Split(s, c), [c]) == s
    decreases |s|
  {
    var i := FirstOf(s, {c});
    if i < |s| {
      JoinSplit(s[i + 1..], c);
      assert s == s[..i] + [c] + s[i + 1..];
    } else {
      assert s[..i] == s;
    }
  }

  function DigitChar(d: nat): char
    requires d < 10
  {
    "0123456789"[d]
  }

  /** Value of a string of decimal digits. */
  function DecimalValue(s: string): nat
    requires forall k :: 0 <= k < |s| ==> '0' <= s[k] <= '9'
  {
    if s == [] then 0
    else 10 * DecimalValue(s[..|s| - 1]) + (s[|s| - 1] as int - '0' as int)
  }

  /** `str(n)` for a non-negative integer: decimal digits without a leading
      zero, whose value is `n`. */
  function NatToString(n: nat): (s: string)
    ensures |s| >= 1 && forall k :: 0 <= k < |s| ==> '0' <= s[k] <= '9'
    ensures s[0] == '0' ==> s == "0"
    ensures DecimalValue(s) == n
  {
    var d := DigitChar(n % 10);
    if n < 10 then [d]
    else
      var front := NatToString(n / 10);
      var s := front + [d];
      assert s[..|s| - 1] == front;
      s
  }
}
