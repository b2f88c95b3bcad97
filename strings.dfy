/**
 * Go's built-in ordering of `string` values: byte-wise lexicographic
 * comparison, in which a proper prefix sorts before the longer string.
 * Strings are sequences of characters here; comparing characters by code
 * point agrees with comparing their UTF-8 encodings byte by byte.
 */
module Strings {
  import Ordering

  /** `a < b` on Go strings. */
  predicate Less(a: string, b: string)
    decreases |a|
  {
    if b == [] then false
    else if a == [] then true
    else if a[0] != b[0] then a[0] < b[0]
    else Less(a[1..], b[1..])
  }

  /** `strings.HasSuffix(s, suffix)`. */
  predicate HasSuffix(s: string, suffix: string) {
    |suffix| <= |s| && s[|s| - |suffix|..] == suffix
  }

  /** Length of the longest common prefix of `a` and `b`. */
  function CommonPrefixLength(a: string, b: string): (k: nat)
    ensures k <= |a| && k <= |b|
    ensures a[..k] == b[..k]
    ensures k < |a| && k < |b| ==> a[k] != b[k]
    decreases |a|
  {
    if a == [] || b == [] || a[0] != b[0] then 0
    else
      var k := 1 + CommonPrefixLength(a[1..], b[1..]);
      assert a[..k] == [a[0]] + a[1..][..k - 1];
      assert b[..k] == [b[0]] + b[1..][..k - 1];
      k
  }

  /**
   * The textbook definition of lexicographic order: `a` sorts first exactly
   * when `b` goes on past the common prefix and `a` either stops there or has
   * the smaller character at the first position where they differ.
   */
  lemma {:induction false} LessAtFirstDifference(a: string, b: string)
    ensures var k := CommonPrefixLength(a, b);
      Less(a, b) <==> k < |b| && (k == |a| || a[k] < b[k])
    decreases |a|
  {
    if a != [] && b != [] && a[0] == b[0] {
      LessAtFirstDifference(a[1..], b[1..]);
    }
  }

  lemma {:induction false} LessIrreflexive(a: string)
    ensures !Less(a, a)
    decreases |a|
  {
    if a != [] {
      LessIrreflexive(a[1..]);
    }
  }

  lemma {:induction false} LessTransitive(a: string, b: string, c: string)
    requires Less(a, b) && Less(b, c)
    ensures Less(a, c)
    decreases |a|
  {
    if a != [] && a[0] == b[0] && b[0] == c[0] {
      LessTransitive(a[1..], b[1..], c[1..]);
    }
  }

  lemma LessAsymmetric(a: string, b: string)
    requires Less(a, b)
    ensures !Less(b, a)
  {
    if Less(b, a) {
      LessTransitive(a, b, a);
      LessIrreflexive(a);
    }
  }

  lemma {:induction false} LessConnected(a: string, b: string)
    requires a != b
    ensures Less(a, b) || Less(b, a)
    decreases |a|
  {
    if a != [] && b != [] && a[0] == b[0] {
      assert a == [a[0]] + a[1..] && b == [b[0]] + b[1..];
      LessConnected(a[1..], b[1..]);
    }
  }

  lemma LessIsAsymmetric()
    ensures Ordering.Asymmetric(Less)
  {
    forall a: string, b: string | Less(a, b) ensures !Less(b, a) {
      LessAsymmetric(a, b);
    }
  }

  /** Go's string order is a strict total order. */
  lemma LessIsStrictTotalOrder()
    ensures Ordering.StrictTotalOrder(Less)
  {
    LessIsAsymmetric();
    forall a: string, b: string, c: string | Less(a, b) && Less(b, c) ensures Less(a, c) {
      LessTransitive(a, b, c);
    }
    forall a: string, b: string | a != b ensures Less(a, b) || Less(b, a) {
      LessConnected(a, b);
    }
  }

  /** A proper prefix sorts first: "v1" before "v1alpha1". */
  lemma {:induction false} ProperPrefixIsLess(a: string, b: string)
    requires |a| < |b| && a == b[..|a|]
    ensures Less(a, b)
    decreases |a|
  {
    if a != [] {
      assert a[1..] == b[1..][..|a| - 1];
      ProperPrefixIsLess(a[1..], b[1..]);
    }
  }

  /** A shared prefix does not affect the order: only what follows it counts. */
  lemma {:induction false} LessAfterCommonPrefix(p: string, a: string, b: string)
    ensures Less(p + a, p + b) <==> Less(a, b)
    decreases |p|
  {
    if p != [] {
      assert (p + a)[1..] == p[1..] + a;
      assert (p + b)[1..] == p[1..] + b;
      assert (p + a)[0] == (p + b)[0] == p[0];
      LessAfterCommonPrefix(p[1..], a, b);
      assert Less(p + a, p + b) == Less(p[1..] + a, p[1..] + b);
    } else {
      assert p + a == a && p + b == b;
    }
  }
}
