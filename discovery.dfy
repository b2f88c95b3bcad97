/**
 * `listSOFiles`: finds the plugin shared objects (`*.so`) in each configured
 * plugin directory and returns their full paths, directory by directory in
 * the order the directories are given, each directory's files in name order.
 */
module Discovery {
  import opened Wrappers
  import Strings
  import Ordering

  /**
   * The file system as discovery sees it: each directory path maps to the
   * names of its entries, in whatever order they were created.
   */
  type FileSystem = map<string, seq<string>>

  datatype DiscoveryError = DirectoryNotFound(dir: string)

  const PluginSuffix: string := ".so"
  const Separator: char := '/'

  predicate IsPluginFile(name: string) {
    Strings.HasSuffix(name, PluginSuffix)
  }

  /** The full path of entry `name` of directory `dir`. */
  function JoinPath(dir: string, name: string): string {
    dir + [Separator] + name
  }

  /** A directory's paths differ exactly where its entry names differ. */
  lemma JoinPathInjective(dir: string, a: string, b: string)
    ensures JoinPath(dir, a) == JoinPath(dir, b) <==> a == b
  {
    if JoinPath(dir, a) == JoinPath(dir, b) {
      assert a == JoinPath(dir, a)[|dir| + 1..];
      assert b == JoinPath(dir, b)[|dir| + 1..];
    }
  }

  /** A full path carries the `.so` suffix exactly when the entry name does. */
  lemma JoinPathKeepsSuffix(dir: string, name: string)
    ensures IsPluginFile(JoinPath(dir, name)) <==> IsPluginFile(name)
  {
    var p := JoinPath(dir, name);
    if |name| >= 3 {
      assert p[|p| - 3..] == name[|name| - 3..];
    } else {
      assert p[|p| - |name| - 1] == Separator;
      assert PluginSuffix[2 - |name|] != Separator;
    }
  }

  /** The entries of one directory that carry the `.so` suffix, each as often as it occurs. */
  function PluginNames(names: seq<string>): (r: seq<string>)
    ensures |r| <= |names|
  {
    if names == [] then []
    else if IsPluginFile(names[0]) then [names[0]] + PluginNames(names[1..])
    else PluginNames(names[1..])
  }

  /** Filtering keeps every `.so` entry as often as it occurs and drops every other entry. */
  lemma {:induction false} PluginNamesCounts(names: seq<string>)
    ensures forall n :: multiset(PluginNames(names))[n] == if IsPluginFile(n) then multiset(names)[n] else 0
  {
    if names != [] {
      assert names == [names[0]] + names[1..];
      PluginNamesCounts(names[1..]);
    }
  }

  /** Each name of a directory turned into its full path, in the same order. */
  function JoinAll(dir: string, names: seq<string>): (r: seq<string>)
    ensures |r| == |names|
    ensures forall i :: 0 <= i < |names| ==> r[i] == JoinPath(dir, names[i])
  {
    seq(|names|, i requires 0 <= i < |names| => JoinPath(dir, names[i]))
  }

  /** Full paths of one directory are found, suffixed and ordered exactly as their names are. */
  lemma JoinAllPreserves(dir: string, names: seq<string>)
    ensures forall n :: JoinPath(dir, n) in JoinAll(dir, names) <==> n in names
    ensures forall p :: p in JoinAll(dir, names) ==> exists i :: 0 <= i < |names| && p == JoinPath(dir, names[i])
    ensures Ordering.SortedBy(Strings.Less, names) ==> Ordering.SortedBy(Strings.Less, JoinAll(dir, names))
  {
    var r := JoinAll(dir, names);
    forall n ensures JoinPath(dir, n) in r <==> n in names {
      if JoinPath(dir, n) in r {
        var i :| 0 <= i < |r| && r[i] == JoinPath(dir, n);
        JoinPathInjective(dir, names[i], n);
      }
      if n in names {
        var i :| 0 <= i < |names| && names[i] == n;
        assert r[i] == JoinPath(dir, n);
      }
    }
    forall p | p in r ensures exists i :: 0 <= i < |names| && p == JoinPath(dir, names[i]) {
      var i :| 0 <= i < |r| && r[i] == p;
    }
    if Ordering.SortedBy(Strings.Less, names) {
      forall k | 0 < k < |r| ensures !Strings.Less(r[k], r[k - 1]) {
        assert r[k] == (dir + [Separator]) + names[k];
        assert r[k - 1] == (dir + [Separator]) + names[k - 1];
        Strings.LessAfterCommonPrefix(dir + [Separator], names[k], names[k - 1]);
      }
    }
  }

  /** The `.so` entries of one directory in name order. */
  function SortedPluginNames(names: seq<string>): (r: seq<string>)
    ensures Ordering.SortedBy(Strings.Less, r)
    ensures |r| == |PluginNames(names)|
    ensures forall n :: n in r <==> n in names && IsPluginFile(n)
  {
    Strings.LessIsAsymmetric();
    PluginNamesCounts(names);
    var sorted := Ordering.Sort(Strings.Less, PluginNames(names));
    assert forall n :: n in sorted <==> n in multiset(sorted);
    assert forall n :: n in names <==> n in multiset(names);
    assert |sorted| == |multiset(sorted)|;
    sorted
  }

  /**
   * What a glob of the pattern `*.so` inside `dir` yields, as full paths: the directory's plugin
   * files sorted by name (which sorts the full paths too).
   */
  function ListDir(dir: string, names: seq<string>): (r: seq<string>)
    ensures |r| == |PluginNames(names)|
    ensures forall n :: JoinPath(dir, n) in r <==> n in names && IsPluginFile(n)
    ensures forall p :: p in r ==> exists n :: n in names && IsPluginFile(n) && p == JoinPath(dir, n)
    ensures Ordering.SortedBy(Strings.Less, r)
  {
    var sorted := SortedPluginNames(names);
    JoinAllPreserves(dir, sorted);
    assert forall i :: 0 <= i < |sorted| ==> sorted[i] in sorted;
    JoinAll(dir, sorted)
  }

  /** Only `.so` files are listed: the `.txt` and `.woo` entries of a directory never show up. */
  lemma ListSOFilesOnlySOFiles(fs: FileSystem, dirs: seq<string>, p: string)
    requires ListSOFiles(fs, dirs).Success?
    requires p in ListSOFiles(fs, dirs).value
    ensures IsPluginFile(p)
  {
    ListSOFilesSound(fs, dirs, p);
    var d, n :| d in dirs && d in fs && n in fs[d] && IsPluginFile(n) && p == JoinPath(d, n);
    JoinPathKeepsSuffix(d, n);
  }

  /**
   * `listSOFiles(fs, pluginsDirs)`: the plugin files of every configured
   * directory, one directory after another in the order given. A configured
   * directory that does not exist is reported instead.
   */
  function ListSOFiles(fs: FileSystem, dirs: seq<string>): (r: Result<seq<string>, DiscoveryError>)
    ensures r.Failure? <==> exists d :: d in dirs && d !in fs
    ensures r.Failure? ==> r.error.dir in dirs && r.error.dir !in fs
  {
    if dirs == [] then Success([])
    else if dirs[0] !in fs then Failure(DirectoryNotFound(dirs[0]))
    else
      var rest := ListSOFiles(fs, dirs[1..]);
      if rest.Failure? then rest
      else Success(ListDir(dirs[0], fs[dirs[0]]) + rest.value)
  }

  /** The directory reported missing is the first configured one that is missing. */
  lemma {:induction false} ListSOFilesReportsFirstMissing(fs: FileSystem, dirs: seq<string>, i: nat)
    requires i < |dirs| && dirs[i] !in fs
    requires forall k :: 0 <= k < i ==> dirs[k] in fs
    ensures ListSOFiles(fs, dirs) == Failure(DirectoryNotFound(dirs[i]))
  {
    if i > 0 {
      ListSOFilesReportsFirstMissing(fs, dirs[1..], i - 1);
    }
  }

  /** Every `.so` entry of every configured directory is listed, under its full path. */
  lemma {:induction false} ListSOFilesComplete(fs: FileSystem, dirs: seq<string>, d: string, n: string)
    requires ListSOFiles(fs, dirs).Success?
    requires d in dirs && d in fs && n in fs[d] && IsPluginFile(n)
    ensures JoinPath(d, n) in ListSOFiles(fs, dirs).value
  {
    if dirs[0] != d {
      ListSOFilesComplete(fs, dirs[1..], d, n);
    }
  }

  /** Everything listed is the full path of a `.so` entry of a configured directory. */
  lemma {:induction false} ListSOFilesSound(fs: FileSystem, dirs: seq<string>, p: string)
    requires ListSOFiles(fs, dirs).Success?
    requires p in ListSOFiles(fs, dirs).value
    ensures exists d, n :: d in dirs && d in fs && n in fs[d] && IsPluginFile(n) && p == JoinPath(d, n)
  {
    var here := ListDir(dirs[0], fs[dirs[0]]);
    if p in here {
      var n :| n in fs[dirs[0]] && IsPluginFile(n) && p == JoinPath(dirs[0], n);
    } else {
      ListSOFilesSound(fs, dirs[1..], p);
      var d, n :| d in dirs[1..] && d in fs && n in fs[d] && IsPluginFile(n) && p == JoinPath(d, n);
    }
  }

  /** One step of the listing: an existing directory's files come before those of the directories after it. */
  lemma ListSOFilesCons(fs: FileSystem, dirs: seq<string>)
    requires dirs != []
    ensures ListSOFiles(fs, dirs).Success? <==> dirs[0] in fs && ListSOFiles(fs, dirs[1..]).Success?
    ensures ListSOFiles(fs, dirs).Success? ==>
      ListSOFiles(fs, dirs).value == ListDir(dirs[0], fs[dirs[0]]) + ListSOFiles(fs, dirs[1..]).value
  {
  }

  /**
   * Directories are listed one after another in the order given: when all of
   * them exist, listing `d1 + d2` is listing `d1` followed by listing `d2`.
   */
  lemma {:induction false} ListSOFilesConcat(fs: FileSystem, d1: seq<string>, d2: seq<string>)
    requires ListSOFiles(fs, d1).Success? && ListSOFiles(fs, d2).Success?
    ensures ListSOFiles(fs, d1 + d2) == Success(ListSOFiles(fs, d1).value + ListSOFiles(fs, d2).value)
  {
    if d1 == [] {
      assert d1 + d2 == d2;
      AppendEmpty(ListSOFiles(fs, d2).value);
    } else {
      var d := d1 + d2;
      ConcatTail(d1, d2);
      ListSOFilesCons(fs, d1);
      ListSOFilesConcat(fs, d1[1..], d2);
      ListSOFilesCons(fs, d);
      AppendAssociative(ListDir(d1[0], fs[d1[0]]), ListSOFiles(fs, d1[1..]).value, ListSOFiles(fs, d2).value);
    }
  }

  lemma AppendAssociative(a: seq<string>, b: seq<string>, c: seq<string>)
    ensures a + (b + c) == (a + b) + c
  {
  }

  lemma ConcatTail(d1: seq<string>, d2: seq<string>)
    requires d1 != []
    ensures (d1 + d2)[0] == d1[0] && (d1 + d2)[1..] == d1[1..] + d2
  {
  }

  lemma AppendEmpty(a: seq<string>)
    ensures [] + a == a
  {
  }

  /** A missing directory among the first ones stops the listing before the later ones are looked at. */
  lemma {:induction false} ListSOFilesStopsAtMissing(fs: FileSystem, d1: seq<string>, d2: seq<string>)
    requires ListSOFiles(fs, d1).Failure?
    ensures ListSOFiles(fs, d1 + d2) == ListSOFiles(fs, d1)
  {
    var d := d1 + d2;
    assert d[0] == d1[0];
    assert d[1..] == d1[1..] + d2;
    if d1[0] in fs {
      ListSOFilesStopsAtMissing(fs, d1[1..], d2);
    }
  }

  /** One existing directory yields that directory's sorted plugin paths. */
  lemma ListSOFilesOneDirectory(fs: FileSystem, dir: string)
    requires dir in fs
    ensures ListSOFiles(fs, [dir]) == Success(ListDir(dir, fs[dir]))
  {
    assert [dir][1..] == [];
    assert ListSOFiles(fs, [dir][1..]) == Success([]);
    assert ListDir(dir, fs[dir]) + [] == ListDir(dir, fs[dir]);
  }

  /** The order in which a directory's files were created does not change the listing. */
  lemma ListDirIgnoresCreationOrder(dir: string, names1: seq<string>, names2: seq<string>)
    requires multiset(names1) == multiset(names2)
    ensures ListDir(dir, names1) == ListDir(dir, names2)
  {
    Strings.LessIsStrictTotalOrder();
    PluginNamesCounts(names1);
    PluginNamesCounts(names2);
    assert multiset(PluginNames(names1)) == multiset(PluginNames(names2));
    Ordering.SortIgnoresInputOrder(Strings.Less, PluginNames(names1), PluginNames(names2));
  }

  /** The file system the test fixture builds, with its `.txt` and `.woo` decoys. */
  function TestFileSystem(other: seq<string>): FileSystem {
    map["/tmp" := ["plugins", "other"],
        "/tmp/plugins" := ["foo.so", "bar.so", "not-an-so.txt"],
        "/tmp/other" := other]
  }

  lemma PluginNamesInOrder()
    ensures Strings.Less("bar.so", "foo.so")
    ensures !Strings.Less("foo.so", "bar.so")
  {
    Strings.LessAsymmetric("bar.so", "foo.so");
  }

  /** The `.so` files of `/tmp/plugins`, sorted, without the `.txt` file. */
  lemma PluginsDirectoryListing()
    ensures ListDir("/tmp/plugins", ["foo.so", "bar.so", "not-an-so.txt"])
      == ["/tmp/plugins/bar.so", "/tmp/plugins/foo.so"]
  {
    PluginsDirectoryNames();
    JoinAllPair("/tmp/plugins", "bar.so", "foo.so");
    PluginsDirectoryPaths();
  }

  lemma JoinAllPair(dir: string, a: string, b: string)
    ensures JoinAll(dir, [a, b]) == [JoinPath(dir, a), JoinPath(dir, b)]
  {
  }

  lemma PluginsDirectoryPaths()
    ensures JoinPath("/tmp/plugins", "bar.so") == "/tmp/plugins/bar.so"
    ensures JoinPath("/tmp/plugins", "foo.so") == "/tmp/plugins/foo.so"
  {
  }

  lemma PluginsDirectoryNames()
    ensures SortedPluginNames(["foo.so", "bar.so", "not-an-so.txt"]) == ["bar.so", "foo.so"]
  {
    var names := ["foo.so", "bar.so", "not-an-so.txt"];
    assert PluginNames(names) == ["foo.so", "bar.so"] by {
      assert !IsPluginFile("not-an-so.txt");
    }
    assert Ordering.SortedBy(Strings.Less, ["bar.so", "foo.so"]) by {
      PluginNamesInOrder();
    }
    assert multiset(["foo.so", "bar.so"]) == multiset(["bar.so", "foo.so"]);
    Strings.LessIsStrictTotalOrder();
    Ordering.SortedPermutationUnique(Strings.Less, SortedPluginNames(names), ["bar.so", "foo.so"]);
  }

  /** First test case: only the `.so` files of the one plugin directory, in name order. */
  lemma FindsOnlySOFilesExample()
    ensures ListSOFiles(TestFileSystem([]), ["/tmp/plugins"])
      == Success(["/tmp/plugins/bar.so", "/tmp/plugins/foo.so"])
  {
    ListSOFilesOneDirectory(TestFileSystem([]), "/tmp/plugins");
    PluginsDirectoryListing();
  }

  /** Second test case: `/tmp/plugins` first, then `/tmp/other`, as the directories are given. */
  lemma MultipleDirectoriesExample()
    ensures ListSOFiles(TestFileSystem(["zap.so", "not-an-so.woo"]), ["/tmp/plugins", "/tmp/other"])
      == Success(["/tmp/plugins/bar.so", "/tmp/plugins/foo.so", "/tmp/other/zap.so"])
  {
    var fs := TestFileSystem(["zap.so", "not-an-so.woo"]);
    ListSOFilesOneDirectory(fs, "/tmp/plugins");
    ListSOFilesOneDirectory(fs, "/tmp/other");
    PluginsDirectoryListing();
    OtherDirectoryListing();
    ListSOFilesConcat(fs, ["/tmp/plugins"], ["/tmp/other"]);
    AppendLiterals("/tmp/plugins", "/tmp/other", "/tmp/plugins/bar.so", "/tmp/plugins/foo.so", "/tmp/other/zap.so");
  }

  lemma AppendLiterals(a: string, b: string, x: string, y: string, z: string)
    ensures [a] + [b] == [a, b]
    ensures [x, y] + [z] == [x, y, z]
  {
  }

  /** The one `.so` file of `/tmp/other`, without the `.woo` file. */
  lemma OtherDirectoryListing()
    ensures ListDir("/tmp/other", ["zap.so", "not-an-so.woo"]) == ["/tmp/other/zap.so"]
  {
    assert SortedPluginNames(["zap.so", "not-an-so.woo"]) == ["zap.so"] by {
      assert PluginNames(["zap.so", "not-an-so.woo"]) == ["zap.so"] by {
        assert !IsPluginFile("not-an-so.woo");
      }
      Strings.LessIsStrictTotalOrder();
      Ordering.SortOfSorted(Strings.Less, ["zap.so"]);
    }
    assert JoinPath("/tmp/other", "zap.so") == "/tmp/other/zap.so";
  }

  /**
   * The listing is not one global sort: `/tmp/other/zap.so` sorts before
   * `/tmp/plugins/foo.so` as a string, yet comes after it.
   */
  lemma NotOneGlobalSort()
    ensures !Ordering.SortedBy(Strings.Less, ["/tmp/plugins/bar.so", "/tmp/plugins/foo.so", "/tmp/other/zap.so"])
  {
    OtherSortsBeforePlugins();
    var s := ["/tmp/plugins/bar.so", "/tmp/plugins/foo.so", "/tmp/other/zap.so"];
    assert Strings.Less(s[2], s[1]);
  }

  lemma OtherSortsBeforePlugins()
    ensures Strings.Less("/tmp/other/zap.so", "/tmp/plugins/foo.so")
  {
    assert "/tmp/other/zap.so" == "/tmp/" + "other/zap.so";
    assert "/tmp/plugins/foo.so" == "/tmp/" + "plugins/foo.so";
    Strings.LessAfterCommonPrefix("/tmp/", "other/zap.so", "plugins/foo.so");
  }
}
