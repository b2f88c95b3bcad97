/**
 * The plugin descriptor `{Name, Version}`, its equality (`pluginEqual`), the
 * comparison of `go-cmp` over plugin slices, and `sortPlugins`, which orders a
 * slice in place by name and then by version, both compared as plain strings.
 */
module Plugins {
  import Strings
  import Ordering

  datatype Plugin = Plugin(name: string, version: string)

  /** `pluginEqual`: both fields match exactly. */
  function PluginEqual(a: Plugin, b: Plugin): (r: bool)
    ensures r <==> a == b
  {
    a.name == b.name && a.version == b.version
  }

  /** `cmp.Equal(want, got, cmp.Comparer(pluginEqual))` on two plugin slices. */
  predicate PluginsEqual(want: seq<Plugin>, got: seq<Plugin>) {
    |want| == |got| && forall i :: 0 <= i < |want| ==> PluginEqual(want[i], got[i])
  }

  /** Under `pluginEqual`, two slices compare equal exactly when they hold the same descriptors in the same order. */
  lemma PluginsEqualIsIdentity(want: seq<Plugin>, got: seq<Plugin>)
    ensures PluginsEqual(want, got) <==> want == got
  {
    if PluginsEqual(want, got) {
      assert forall i :: 0 <= i < |want| ==> want[i] == got[i];
    }
  }

  /** The order `sortPlugins` uses: by name, and by version where names are equal. */
  predicate Less(a: Plugin, b: Plugin) {
    Strings.Less(a.name, b.name) || (a.name == b.name && Strings.Less(a.version, b.version))
  }

  lemma LessIsAsymmetric()
    ensures Ordering.Asymmetric(Less)
  {
    forall a: Plugin, b: Plugin | Less(a, b) ensures !Less(b, a) {
      LessAsymmetric(a, b);
    }
  }

  lemma LessIsStrictTotalOrder()
    ensures Ordering.StrictTotalOrder(Less)
  {
    LessIsAsymmetric();
    Strings.LessIsStrictTotalOrder();
    forall a: Plugin, b: Plugin | a != b ensures Less(a, b) || Less(b, a) {
      if a.name == b.name {
        Strings.LessConnected(a.version, b.version);
      } else {
        Strings.LessConnected(a.name, b.name);
      }
    }
  }

  lemma LessAsymmetric(a: Plugin, b: Plugin)
    requires Less(a, b)
    ensures !Less(b, a)
  {
    if Strings.Less(a.name, b.name) {
      Strings.LessAsymmetric(a.name, b.name);
    } else {
      Strings.LessIrreflexive(a.name);
      Strings.LessAsymmetric(a.version, b.version);
    }
  }

  /** What a slice sorted by `Less` looks like field by field. */
  lemma SortedByNameThenVersion(s: seq<Plugin>)
    requires Ordering.SortedBy(Less, s)
    ensures forall i, j :: 0 <= i < j < |s| ==> !Strings.Less(s[j].name, s[i].name)
    ensures forall i, j :: 0 <= i < j < |s| && s[i].name == s[j].name ==> !Strings.Less(s[j].version, s[i].version)
  {
    LessIsStrictTotalOrder();
    Ordering.SortedByAllPairs(Less, s);
    forall i, j | 0 <= i < j < |s| ensures !Strings.Less(s[j].name, s[i].name) {
      assert !Less(s[j], s[i]);
    }
  }

  /**
   * `sortPlugins`: sorts the caller's slice in place. Insertion sort; the
   * result is the one sorted permutation of the input.
   */
  method SortPlugins(a: array<Plugin>)
    modifies a
    ensures Ordering.SortedBy(Less, a[..])
    ensures multiset(a[..]) == multiset(old(a[..]))
    ensures (LessIsAsymmetric(); a[..] == Ordering.Sort(Less, old(a[..])))
  {
    var i := 0;
    while i < a.Length
      invariant 0 <= i <= a.Length
      invariant Ordering.SortedBy(Less, a[..i])
      invariant multiset(a[..]) == multiset(old(a[..]))
    {
      InsertAt(a, i);
      i := i + 1;
    }
    assert a[..] == a[..a.Length];
    LessIsStrictTotalOrder();
    Ordering.SortedPermutationUnique(Less, a[..], Ordering.Sort(Less, old(a[..])));
  }

  method Swap(a: array<Plugin>, i: nat, j: nat)
    requires i < j < a.Length
    modifies a
    ensures a[..] == old(a[..])[i := old(a[j])][j := old(a[i])]
  {
    a[i], a[j] := a[j], a[i];
  }

  /**
   * One insertion step: moves `a[i]` left past every element that sorts
   * after it, so the first `i + 1` elements end up sorted and hold what they
   * held before, and the rest of the array is untouched.
   */
  method InsertAt(a: array<Plugin>, i: nat)
    requires i < a.Length
    requires Ordering.SortedBy(Less, a[..i])
    modifies a
    ensures Ordering.SortedBy(Less, a[..i + 1])
    ensures multiset(a[..i + 1]) == multiset(old(a[..i + 1]))
    ensures a[i + 1..] == old(a[i + 1..])
    ensures multiset(a[..]) == multiset(old(a[..]))
  {
    ghost var before := a[..];
    InsertionStart(before, i);
    var j: nat := i;
    while j > 0 && Less(a[j], a[j - 1])
      invariant InsertionState(a[..], before, i, j)
    {
      ghost var s := a[..];
      Swap(a, j - 1, j);
      InsertionStep(s, before, i, j);
      j := j - 1;
    }
    InsertionDone(a[..], before, i, j);
  }

  /**
   * Midway through inserting `before[i]`: the element being moved sits at `j`,
   * the first `i + 1` positions are in order except at `j`, the element left
   * of `j` may also precede the one right of it, and nothing past `i` has moved.
   */
  ghost predicate InsertionState(s: seq<Plugin>, before: seq<Plugin>, i: nat, j: nat) {
    && |s| == |before| && j <= i < |s|
    && (forall k :: 0 < k <= i && k != j ==> !Less(s[k], s[k - 1]))
    && (0 < j < i ==> !Less(s[j + 1], s[j - 1]))
    && s[i + 1..] == before[i + 1..]
    && multiset(s) == multiset(before)
  }

  lemma InsertionStart(before: seq<Plugin>, i: nat)
    requires i < |before| && Ordering.SortedBy(Less, before[..i])
    ensures InsertionState(before, before, i, i)
  {
    forall k | 0 < k < i ensures !Less(before[k], before[k - 1]) {
      assert before[..i][k] == before[k] && before[..i][k - 1] == before[k - 1];
    }
  }

  /** Swapping the moved element with a left neighbour that sorts after it keeps the state. */
  lemma InsertionStep(s: seq<Plugin>, before: seq<Plugin>, i: nat, j: nat)
    requires InsertionState(s, before, i, j) && 0 < j && Less(s[j], s[j - 1])
    ensures InsertionState(s[j - 1 := s[j]][j := s[j - 1]], before, i, j - 1)
  {
    var t := s[j - 1 := s[j]][j := s[j - 1]];
    LessAsymmetric(s[j], s[j - 1]);
    forall k | 0 < k <= i && k != j - 1 ensures !Less(t[k], t[k - 1]) {
      if k == j + 1 {
        assert t[k] == s[j + 1] && t[k - 1] == s[j - 1];
      } else if k != j {
        assert t[k] == s[k] && t[k - 1] == s[k - 1];
      }
    }
    if 0 < j - 1 {
      assert t[j] == s[j - 1] && t[j - 2] == s[j - 2];
    }
    assert t[i + 1..] == s[i + 1..];
    SwapPermutes(s, j - 1, j);
  }

  lemma SwapPermutes(s: seq<Plugin>, i: nat, j: nat)
    requires i < j < |s|
    ensures multiset(s[i := s[j]][j := s[i]]) == multiset(s)
  {
    var t := s[i := s[j]][j := s[i]];
    assert s == s[..i] + [s[i]] + s[i + 1..j] + [s[j]] + s[j + 1..];
    assert t == s[..i] + [s[j]] + s[i + 1..j] + [s[i]] + s[j + 1..];
  }

  /** Once the moved element has stopped, the first `i + 1` positions are sorted and a permutation of what they were. */
  lemma InsertionDone(s: seq<Plugin>, before: seq<Plugin>, i: nat, j: nat)
    requires InsertionState(s, before, i, j) && (j == 0 || !Less(s[j], s[j - 1]))
    ensures Ordering.SortedBy(Less, s[..i + 1])
    ensures multiset(s[..i + 1]) == multiset(before[..i + 1])
    ensures s[i + 1..] == before[i + 1..] && multiset(s) == multiset(before)
  {
    var p := s[..i + 1];
    forall k, l | 0 <= k < l < |p| && l == k + 1 ensures !Less(p[l], p[k]) {
      assert p[l] == s[l] && p[k] == s[k];
    }
    PrefixPermutation(before, s, i + 1);
  }
  /** Two permutations of each other that agree from position `n` on are permutations up to `n`. */
  lemma PrefixPermutation(before: seq<Plugin>, after: seq<Plugin>, n: nat)
    requires n <= |before| == |after|
    requires multiset(after) == multiset(before)
    requires after[n..] == before[n..]
    ensures multiset(after[..n]) == multiset(before[..n])
  {
    assert before == before[..n] + before[n..];
    assert after == after[..n] + after[n..];
    var tail := multiset(before[n..]);
    assert multiset(after[..n]) + tail == multiset(before[..n]) + tail;
    assert multiset(after[..n]) == multiset(after[..n]) + tail - tail;
  }

  /** Sorting an already sorted slice changes nothing. */
  lemma SortPluginsIdempotent(s: seq<Plugin>)
    ensures (LessIsAsymmetric(); Ordering.SortedBy(Less, s) ==> Ordering.Sort(Less, s) == s)
  {
    LessIsStrictTotalOrder();
    if Ordering.SortedBy(Less, s) {
      Ordering.SortOfSorted(Less, s);
    }
  }

  const Flux := "fluxv2.packages"
  const Kapp := "kapp_controller.packages"

  /** Two plugins with different names are ordered by name alone. */
  lemma SortByNameExample()
    ensures (LessIsAsymmetric();
      Ordering.Sort(Less, [Plugin(Kapp, "v1alpha1"), Plugin(Flux, "v1alpha1")])
      == [Plugin(Flux, "v1alpha1"), Plugin(Kapp, "v1alpha1")])
  {
    var input := [Plugin(Kapp, "v1alpha1"), Plugin(Flux, "v1alpha1")];
    var expected := [Plugin(Flux, "v1alpha1"), Plugin(Kapp, "v1alpha1")];
    assert Ordering.SortedBy(Less, expected) by {
      assert Strings.Less(Flux, Kapp);
      LessAsymmetric(expected[0], expected[1]);
    }
    assert multiset(input) == multiset(expected);
    LessIsStrictTotalOrder();
    Ordering.SortedPermutationUnique(Less, Ordering.Sort(Less, input), expected);
  }

  /** The version strings of the test case in the order Go's `<` puts them. */
  lemma VersionStringsInOrder()
    ensures Strings.Less("v1", "v1alpha1")
    ensures Strings.Less("v1alpha1", "v1alpha2")
    ensures Strings.Less("v1alpha2", "v1beta1")
  {
    Strings.ProperPrefixIsLess("v1", "v1alpha1");
    AlphaOneBeforeAlphaTwo();
    AlphaBeforeBeta();
  }

  lemma AlphaOneBeforeAlphaTwo()
    ensures Strings.Less("v1alpha1", "v1alpha2")
  {
    assert "v1alpha1" == "v1alpha" + "1" && "v1alpha2" == "v1alpha" + "2";
    Strings.LessAfterCommonPrefix("v1alpha", "1", "2");
  }

  lemma AlphaBeforeBeta()
    ensures Strings.Less("v1alpha2", "v1beta1")
  {
    assert "v1alpha2" == "v1" + "alpha2" && "v1beta1" == "v1" + "beta1";
    Strings.LessAfterCommonPrefix("v1", "alpha2", "beta1");
  }

  /** The expected order of the version test case, link by link. */
  lemma VersionExampleSorted()
    ensures Ordering.SortedBy(Less, [Plugin(Flux, "v1"), Plugin(Flux, "v1alpha1"), Plugin(Flux, "v1alpha2"),
                                     Plugin(Flux, "v1beta1"), Plugin(Kapp, "v1alpha1")])
  {
    VersionStringsInOrder();
    assert Strings.Less(Flux, Kapp);
    LessAsymmetric(Plugin(Flux, "v1"), Plugin(Flux, "v1alpha1"));
    LessAsymmetric(Plugin(Flux, "v1alpha1"), Plugin(Flux, "v1alpha2"));
    LessAsymmetric(Plugin(Flux, "v1alpha2"), Plugin(Flux, "v1beta1"));
    LessAsymmetric(Plugin(Flux, "v1beta1"), Plugin(Kapp, "v1alpha1"));
    SortedByLinks(Plugin(Flux, "v1"), Plugin(Flux, "v1alpha1"), Plugin(Flux, "v1alpha2"),
                  Plugin(Flux, "v1beta1"), Plugin(Kapp, "v1alpha1"));
  }

  lemma SortedByLinks(a: Plugin, b: Plugin, c: Plugin, d: Plugin, e: Plugin)
    requires !Less(b, a) && !Less(c, b) && !Less(d, c) && !Less(e, d)
    ensures Ordering.SortedBy(Less, [a, b, c, d, e])
  {
  }

  /** Equal names fall back to versions, compared as strings and not as semantic versions. */
  lemma SortByVersionExample()
    ensures (LessIsAsymmetric();
      Ordering.Sort(Less, [Plugin(Kapp, "v1alpha1"), Plugin(Flux, "v1alpha1"), Plugin(Flux, "v1"),
                           Plugin(Flux, "v1alpha2"), Plugin(Flux, "v1beta1")])
      == [Plugin(Flux, "v1"), Plugin(Flux, "v1alpha1"), Plugin(Flux, "v1alpha2"),
          Plugin(Flux, "v1beta1"), Plugin(Kapp, "v1alpha1")])
  {
    var input := [Plugin(Kapp, "v1alpha1"), Plugin(Flux, "v1alpha1"), Plugin(Flux, "v1"),
                  Plugin(Flux, "v1alpha2"), Plugin(Flux, "v1beta1")];
    var expected := [Plugin(Flux, "v1"), Plugin(Flux, "v1alpha1"), Plugin(Flux, "v1alpha2"),
                     Plugin(Flux, "v1beta1"), Plugin(Kapp, "v1alpha1")];
    VersionExampleSorted();
    assert multiset(input) == multiset(expected);
    LessIsStrictTotalOrder();
    Ordering.SortedPermutationUnique(Less, Ordering.Sort(Less, input), expected);
  }
}
