/**
 * The string primitives the gateway relies on, over `string` (one `char` per
 * byte of a Go string). Case folding is ASCII: `strings.ToLower` and
 * `strings.EqualFold` agree with `Lower` on ASCII text only.
 */
module Text {

  /** ASCII lower-casing of one character. */
  function LowerChar(c: char): char
  {
    if 'A' <= c <= 'Z' then (c as int + 32) as char else c
  }

  /** `strings.ToLower`, restricted to ASCII folding. */
  function Lower(s: string): (r: string)
  {
    seq(|s|, i requires 0 <= i < |s| => LowerChar(s[i]))
  }

  /** `strings.EqualFold`, restricted to ASCII folding. */
  predicate EqualFold(a: string, b: string)
  {
    Lower(a) == Lower(b)
  }

  /** `sub` occurs in `s` starting at position `i`. */
  predicate OccursAt(s: string, sub: string, i: int)
  {
    0 <= i && i + |sub| <= |s| && s[i..i + |sub|] == sub
  }

  /** `strings.Contains`: `sub` occurs contiguously somewhere in `s`. */
  predicate Contains(s: string, sub: string)
  {
    exists i :: 0 <= i <= |s| - |sub| && OccursAt(s, sub, i)
  }

  /** `strings.HasSuffix`. */
  predicate HasSuffix(s: string, suffix: string)
  {
    |suffix| <= |s| && s[|s| - |suffix|..] == suffix
  }

  /** `strings.LastIndex(s, string(c))` for a single character `c`: -1 when absent. */
  function LastIndex(s: string, c: char): (r: int)
    ensures -1 <= r < |s|
    ensures r >= 0 ==> s[r] == c
    ensures forall j :: r < j < |s| ==> s[j] != c
  {
    if |s| == 0 then -1
    else if s[|s| - 1] == c then |s| - 1
    else LastIndex(s[..|s| - 1], c)
  }

  /** The text after the last `/`, or all of `s` when it has none. */
  function AfterLastSlash(s: string): (r: string)
    ensures '/' !in r
  {
    var i := LastIndex(s, '/');
    if i < 0 then s else s[i + 1..]
  }

  /** The text before the last `/`; only meaningful when `s` has one. */
  function BeforeLastSlash(s: string): string
  {
    var i := LastIndex(s, '/');
    if i < 0 then s else s[..i]
  }

  /** Go's byte-wise string `<`. */
  predicate Less(a: string, b: string)
  {
    if |a| == 0 then |b| > 0
    else if |b| == 0 then false
    else if a[0] != b[0] then a[0] < b[0]
    else Less(a[1..], b[1..])
  }

  /** The non-strict order that `sort.Strings` and `sort.Slice` leave between neighbours. */
  predicate Leq(a: string, b: string)
  {
    !Less(b, a)
  }

  lemma {:induction false} LessIrreflexive(a: string)
    ensures !Less(a, a)
  {
    if |a| > 0 {
      LessIrreflexive(a[1..]);
    }
  }

  lemma {:induction false} LessTransitive(a: string, b: string, c: string)
    requires Less(a, b) && Less(b, c)
    ensures Less(a, c)
  {
    if |a| > 0 && |b| > 0 && |c| > 0 && a[0] == b[0] && b[0] == c[0] {
      LessTransitive(a[1..], b[1..], c[1..]);
    }
  }

  lemma {:induction false} LessTrichotomy(a: string, b: string)
    ensures a == b || Less(a, b) || Less(b, a)
  {
    if |a| > 0 && |b| > 0 && a[0] == b[0] {
      LessTrichotomy(a[1..], b[1..]);
      if a[1..] == b[1..] {
        assert a == [a[0]] + a[1..] && b == [b[0]] + b[1..];
      }
    }
  }

  /** `Leq` is a total preorder, which is all a comparison sort needs. */
  lemma LeqTotal(a: string, b: string)
    ensures Leq(a, b) || Leq(b, a)
  {
    if Less(a, b) && Less(b, a) {
      LessTransitive(a, b, a);
      LessIrreflexive(a);
    }
  }

  lemma LeqTransitive(a: string, b: string, c: string)
    requires Leq(a, b) && Leq(b, c)
    ensures Leq(a, c)
  {
    if Less(c, a) {
      LessTrichotomy(a, b);
      if Less(a, b) {
        LessTransitive(c, a, b);
      }
    }
  }

  /** Between distinct strings the non-strict order is strict. */
  lemma LeqDistinctIsLess(a: string, b: string)
    requires Leq(a, b) && a != b
    ensures Less(a, b)
  {
    LessTrichotomy(a, b);
  }

  /** `strings.Split(s, string(c))[0]`: the text before the first `c`, or all of `s`. */
  function BeforeFirst(s: string, c: char): (r: string)
    ensures c !in r
    ensures r == s || (|r| < |s| && s[|r|] == c && s[..|r|] == r)
  {
    if s == [] then []
    else if s[0] == c then []
    else [s[0]] + BeforeFirst(s[1..], c)
  }
}
