/**
 * Day 7 (No Space Left On Device): a terminal session that walks a file
 * system with `cd` and `ls` is replayed into a tree of directory objects.
 * Each directory knows its parent, its child directories by name and its
 * files by name with their sizes.  Part 1 sums the sizes of the directories
 * below the root whose size is under 100000; part 2 picks the smallest
 * directory below the root whose deletion brings the used space under
 * 40000000.
 */
module FileTree {
  import opened Wrappers

  /** A line of the session, already told apart by its prefix. */
  datatype Line =
    | Ls                              // `$ ls`
    | DirLine(dir: string)            // `dir x` in a listing
    | Cd(target: string)              // `$ cd x` or `$ cd ..`
    | FileLine(size: int, file: string) // `123 abc` in a listing

  /** A directory: its name, its parent (none for the root), its children and its files. */
  class DTree {
    const name: string
    const parent: DTree?
    /** Number of `parent` links up to the root. */
    ghost const depth: nat
    var children: map<string, DTree>
    var files: map<string, int>

    constructor (name: string, parent: DTree?)
      ensures this.name == name && this.parent == parent
      ensures depth == if parent == null then 0 else parent.depth + 1
      ensures children == map[] && files == map[]
    {
      this.name := name;
      this.parent := parent;
      depth := if parent == null then 0 else parent.depth + 1;
      children := map[];
      files := map[];
    }

    /** `touch`: record a file of this directory, replacing an earlier size. */
    method Touch(name: string, size: int)
      modifies this
      ensures files == old(files)[name := size]
      ensures children == old(children)
    {
      files := files[name := size];
    }

    /**
     * `mkdir`: the child of that name, made (with this directory as its
     * parent) only when there is none yet.  Like `setdefault`, the new
     * directory is built before the lookup and dropped when the name exists.
     */
    method Mkdir(name: string) returns (child: DTree)
      modifies this
      ensures files == old(files)
      ensures name in old(children) ==> child == old(children)[name] && unchanged(this)
      ensures name !in old(children) ==>
                && fresh(child)
                && children == old(children)[name := child]
                && child.name == name && child.parent == this && child.depth == depth + 1
                && child.children == map[] && child.files == map[]
    {
      var made := new DTree(name, this);
      if name in children {
        child := children[name];
      } else {
        children := children[name := made];
        child := made;
      }
    }
  }

  /**
   * The links among `nodes` are those of a tree: a parent lists its child
   * under the child's name, a child lists its parent, and depth counts the
   * `parent` links.
   */
  ghost predicate Closed(nodes: set<DTree>)
    reads nodes`children
  {
    && (forall n :: n in nodes && n.parent == null ==> n.depth == 0)
    && (forall n :: n in nodes && n.parent != null ==>
          && n.parent in nodes
          && n.depth == n.parent.depth + 1
          && n.name in n.parent.children
          && n.parent.children[n.name] == n)
    && (forall n, k :: n in nodes && k in n.children ==>
          && n.children[k] in nodes
          && n.children[k].parent == n
          && n.children[k].name == k)
  }

  /** `nodes` is a tree whose only parentless directory is `root`. */
  ghost predicate Tree(root: DTree, nodes: set<DTree>)
    reads nodes`children
  {
    && Closed(nodes)
    && root in nodes
    && root.parent == null
    && (forall n :: n in nodes && n.parent == null ==> n == root)
  }

  /** The directories of `nodes` at depth `d` or more; shrinks going down. */
  ghost function Deeper(nodes: set<DTree>, d: nat): set<DTree>
  {
    set m | m in nodes && m.depth >= d
  }

  lemma DeeperShrinks(nodes: set<DTree>, n: DTree, c: DTree)
    requires n in nodes && c.depth == n.depth + 1
    ensures Deeper(nodes, c.depth) < Deeper(nodes, n.depth)
  {
    assert n in Deeper(nodes, n.depth) && n !in Deeper(nodes, c.depth);
  }

  /** The ancestor `k` parent links above `m`. */
  ghost function Up(m: DTree, k: nat, nodes: set<DTree>): (a: DTree)
    reads nodes`children
    requires Closed(nodes) && m in nodes && k <= m.depth
    ensures a in nodes && a.depth == m.depth - k
    decreases k
  {
    if k == 0 then m else Up(m.parent, k - 1, nodes)
  }

  /** `m` is a proper descendant of `n`. */
  ghost predicate Below(m: DTree, n: DTree, nodes: set<DTree>)
    reads nodes`children
    requires Closed(nodes) && m in nodes
  {
    m.depth > n.depth && Up(m, m.depth - n.depth, nodes) == n
  }

  /**
   * `root`: follows `parent` links to the directory that has none; every
   * other directory is below it.
   */
  function Root(n: DTree, ghost nodes: set<DTree>): (r: DTree)
    reads nodes`children
    requires Closed(nodes) && n in nodes
    ensures r in nodes && r.parent == null
    ensures r == n || Below(n, r, nodes)
    decreases n.depth
  {
    if n.parent == null then n
    else
      var r := Root(n.parent, nodes);
      assert Up(n, n.depth - r.depth, nodes) == Up(n.parent, n.parent.depth - r.depth, nodes);
      r
  }

  lemma {:induction false} UpLast(m: DTree, k: nat, nodes: set<DTree>)
    requires Closed(nodes) && m in nodes && 0 < k <= m.depth
    ensures Up(m, k, nodes) == Up(m, k - 1, nodes).parent
    decreases k
  {
    if k > 1 {
      UpLast(m.parent, k - 1, nodes);
    }
  }

  /** A proper descendant of `n` is a child `c` of `n` or lies below one. */
  lemma BelowSplit(m: DTree, n: DTree, nodes: set<DTree>)
    requires Closed(nodes) && m in nodes && Below(m, n, nodes)
    ensures Up(m, m.depth - n.depth - 1, nodes).parent == n
    ensures var c := Up(m, m.depth - n.depth - 1, nodes); m == c || Below(m, c, nodes)
  {
    var d := m.depth - n.depth;
    UpLast(m, d, nodes);
    var c := Up(m, d - 1, nodes);
    if d > 1 {
      assert m.depth - c.depth == d - 1;
    }
  }

  /** Whatever is a child of `n` or lies below one is below `n`, through that child. */
  lemma BelowJoin(m: DTree, c: DTree, n: DTree, nodes: set<DTree>)
    requires Closed(nodes) && m in nodes && c in nodes && c.parent == n
    requires m == c || Below(m, c, nodes)
    ensures Below(m, n, nodes) && Up(m, m.depth - n.depth - 1, nodes) == c
  {
    UpLast(m, m.depth - n.depth, nodes);
  }

  /** The sum of `m`'s values at `keys`, in whatever order the keys are taken. */
  ghost function SumOver(m: map<string, int>, keys: set<string>): int
    requires keys <= m.Keys
    decreases keys
  {
    if keys == {} then 0 else var k :| k in keys; m[k] + SumOver(m, keys - {k})
  }

  /** Any key may be taken first: the sum does not depend on the order. */
  lemma {:induction false} SumOverRemove(m: map<string, int>, keys: set<string>, k: string)
    requires keys <= m.Keys && k in keys
    ensures SumOver(m, keys) == m[k] + SumOver(m, keys - {k})
    decreases keys
  {
    var j :| j in keys && SumOver(m, keys) == m[j] + SumOver(m, keys - {j});
    if j != k {
      SumOverRemove(m, keys - {j}, k);
      SumOverRemove(m, keys - {k}, j);
      assert keys - {j} - {k} == keys - {k} - {j};
    }
  }

  /** With no negative values the sum is at least each of its terms. */
  lemma {:induction false} SumOverAtLeast(m: map<string, int>, keys: set<string>, k: string)
    requires keys <= m.Keys && k in keys
    requires forall j :: j in keys ==> m[j] >= 0
    ensures SumOver(m, keys) >= m[k] && SumOver(m, keys) >= 0
  {
    SumOverRemove(m, keys, k);
    SumOverNonNegative(m, keys - {k});
  }

  lemma {:induction false} SumOverNonNegative(m: map<string, int>, keys: set<string>)
    requires keys <= m.Keys
    requires forall j :: j in keys ==> m[j] >= 0
    ensures SumOver(m, keys) >= 0
    decreases keys
  {
    if keys != {} {
      var k :| k in keys && SumOver(m, keys) == m[k] + SumOver(m, keys - {k});
      SumOverNonNegative(m, keys - {k});
    }
  }

  /** The sum of the sizes of a directory's own files. */
  ghost function FileTotal(n: DTree): int
    reads n
  {
    SumOver(n.files, n.files.Keys)
  }

  /**
   * `size`: the sizes of the directory's own files plus the sizes of its
   * child directories.
   */
  ghost function Size(n: DTree, nodes: set<DTree>): int
    reads nodes
    requires Closed(nodes) && n in nodes
    decreases Deeper(nodes, n.depth), 1
  {
    FileTotal(n) + SumOver(ChildSizes(n, nodes), n.children.Keys)
  }

  /** The size of each child directory, by name. */
  ghost function ChildSizes(n: DTree, nodes: set<DTree>): (sizes: map<string, int>)
    reads nodes
    requires Closed(nodes) && n in nodes
    ensures sizes.Keys == n.children.Keys
    decreases Deeper(nodes, n.depth), 0
  {
    map k | k in n.children :: (DeeperShrinks(nodes, n, n.children[k]); Size(n.children[k], nodes))
  }

  /** `size`, computed as the source does: files first, then each child in turn. */
  method ComputeSize(n: DTree, ghost nodes: set<DTree>) returns (total: int)
    requires Closed(nodes) && n in nodes
    ensures total == Size(n, nodes)
    decreases Deeper(nodes, n.depth)
  {
    var fileSum := 0;
    var keys := n.files.Keys;
    while keys != {}
      invariant keys <= n.files.Keys
      invariant fileSum + SumOver(n.files, keys) == FileTotal(n)
      decreases keys
    {
      var k :| k in keys;
      SumOverRemove(n.files, keys, k);
      fileSum := fileSum + n.files[k];
      keys := keys - {k};
    }
    ghost var sizes := ChildSizes(n, nodes);
    var dirSum := 0;
    keys := n.children.Keys;
    while keys != {}
      invariant keys <= n.children.Keys
      invariant dirSum + SumOver(sizes, keys) == SumOver(sizes, n.children.Keys)
      decreases keys
    {
      var k :| k in keys;
      DeeperShrinks(nodes, n, n.children[k]);
      var s := ComputeSize(n.children[k], nodes);
      SumOverRemove(sizes, keys, k);
      dirSum := dirSum + s;
      keys := keys - {k};
    }
    total := fileSum + dirSum;
  }

  /** No directory holds a file of negative size. */
  ghost predicate NoNegativeFiles(nodes: set<DTree>)
    reads nodes
  {
    forall n, k :: n in nodes && k in n.files ==> n.files[k] >= 0
  }

  lemma {:induction false} SizeNonNegative(n: DTree, nodes: set<DTree>)
    requires Closed(nodes) && n in nodes && NoNegativeFiles(nodes)
    ensures Size(n, nodes) >= 0
    decreases Deeper(nodes, n.depth)
  {
    SumOverNonNegative(n.files, n.files.Keys);
    var sizes := ChildSizes(n, nodes);
    forall k | k in n.children.Keys
      ensures sizes[k] >= 0
    {
      DeeperShrinks(nodes, n, n.children[k]);
      SizeNonNegative(n.children[k], nodes);
    }
    SumOverNonNegative(sizes, n.children.Keys);
  }

  lemma SizeAtLeastChild(n: DTree, k: string, nodes: set<DTree>)
    requires Closed(nodes) && n in nodes && NoNegativeFiles(nodes) && k in n.children
    ensures Size(n.children[k], nodes) <= Size(n, nodes)
  {
    SumOverNonNegative(n.files, n.files.Keys);
    var sizes := ChildSizes(n, nodes);
    forall j | j in n.children.Keys
      ensures sizes[j] >= 0
    {
      SizeNonNegative(n.children[j], nodes);
    }
    SumOverAtLeast(sizes, n.children.Keys, k);
  }

  /** A directory is at least as large as any directory below it. */
  lemma {:induction false} SizeAtLeastBelow(m: DTree, n: DTree, nodes: set<DTree>)
    requires Closed(nodes) && m in nodes && n in nodes && NoNegativeFiles(nodes)
    requires Below(m, n, nodes)
    ensures Size(m, nodes) <= Size(n, nodes)
    decreases m.depth - n.depth
  {
    BelowSplit(m, n, nodes);
    var c := Up(m, m.depth - n.depth - 1, nodes);
    SizeAtLeastChild(n, c.name, nodes);
    if m != c {
      SizeAtLeastBelow(m, c, nodes);
    }
  }

  /** In a tree every directory is the root or lies below it. */
  lemma EveryDirectoryBelowRoot(root: DTree, nodes: set<DTree>)
    requires Tree(root, nodes)
    ensures forall n :: n in nodes ==> n == root || Below(n, root, nodes)
  {
    forall n | n in nodes
      ensures n == root || Below(n, root, nodes)
    {
      var r := Root(n, nodes);
    }
  }

  /** The sizes of the directories' own files, added up along a sequence of directories. */
  ghost function FilesAlong(s: seq<DTree>): int
    reads s
  {
    if s == [] then 0 else FileTotal(s[0]) + FilesAlong(s[1..])
  }

  lemma {:induction false} FilesAlongAppend(a: seq<DTree>, b: seq<DTree>)
    ensures FilesAlong(a + b) == FilesAlong(a) + FilesAlong(b)
  {
    if a == [] {
      assert a + b == b;
    } else {
      assert (a + b)[1..] == a[1..] + b;
      FilesAlongAppend(a[1..], b);
    }
  }

  predicate NoDuplicates(s: seq<DTree>)
  {
    forall i, j :: 0 <= i < j < |s| ==> s[i] != s[j]
  }

  /** Every directory of `s` is a child of `n` or a child of a directory met earlier in `s`. */
  predicate ParentsFirst(n: DTree, s: seq<DTree>)
  {
    forall i :: 0 <= i < |s| ==> s[i].parent == n || s[i].parent in s[..i]
  }

  lemma ParentsFirstExtend(n: DTree, s: seq<DTree>, c: DTree, w: seq<DTree>)
    requires ParentsFirst(n, s) && c.parent == n && ParentsFirst(c, w)
    ensures ParentsFirst(n, s + [c] + w)
  {
    var t := s + [c] + w;
    forall i | 0 <= i < |t|
      ensures t[i].parent == n || t[i].parent in t[..i]
    {
      if i < |s| {
        assert t[..i] == s[..i];
      } else if i > |s| {
        var j := i - |s| - 1;
        assert t[i] == w[j];
        assert t[..i] == s + [c] + w[..j];
      }
    }
  }

  lemma NoDuplicatesExtend(s: seq<DTree>, c: DTree, w: seq<DTree>)
    requires NoDuplicates(s) && NoDuplicates(w)
    requires c !in s && c !in w && forall m :: m in w ==> m !in s
    ensures NoDuplicates(s + [c] + w)
  {
    var t := s + [c] + w;
    forall i, j | 0 <= i < j < |t|
      ensures t[i] != t[j]
    {
      if j < |s| {
        assert t[i] == s[i] && t[j] == s[j];
      } else if j == |s| {
        assert t[i] == s[i] && t[j] == c;
      } else if i > |s| {
        assert t[i] == w[i - |s| - 1] && t[j] == w[j - |s| - 1];
      } else if i == |s| {
        assert t[i] == c && t[j] == w[j - |s| - 1] && w[j - |s| - 1] in w;
      } else {
        assert t[i] == s[i] && t[j] == w[j - |s| - 1] && w[j - |s| - 1] in w;
      }
    }
  }

  /**
   * `s` holds exactly the directories below `n` that lie under a child of
   * `n` whose name is not in `keys`.
   */
  ghost predicate Covers(n: DTree, s: seq<DTree>, keys: set<string>, nodes: set<DTree>)
    reads nodes
    requires Closed(nodes) && n in nodes
  {
    && (forall m :: m in s ==>
          m in nodes && Below(m, n, nodes) && Up(m, m.depth - n.depth - 1, nodes).name !in keys)
    && (forall m :: m in nodes && Below(m, n, nodes) && Up(m, m.depth - n.depth - 1, nodes).name !in keys ==>
          m in s)
  }

  /** The walk of child `c` lies under `c`, and everything under `c` is `c` or in its walk. */
  lemma UnderChild(n: DTree, c: DTree, w: seq<DTree>, nodes: set<DTree>)
    requires Closed(nodes) && n in nodes && c in nodes && c.parent == n
    requires forall m :: m in w <==> m in nodes && Below(m, c, nodes)
    ensures Below(c, n, nodes) && Up(c, c.depth - n.depth - 1, nodes) == c
    ensures forall m :: m in w ==> m in nodes && Below(m, n, nodes) && Up(m, m.depth - n.depth - 1, nodes) == c
    ensures forall m :: m in nodes && Below(m, n, nodes) && Up(m, m.depth - n.depth - 1, nodes) == c ==>
              m == c || m in w
  {
    BelowJoin(c, c, n, nodes);
    forall m | m in w
      ensures Below(m, n, nodes) && Up(m, m.depth - n.depth - 1, nodes) == c
    {
      BelowJoin(m, c, n, nodes);
    }
    forall m | m in nodes && Below(m, n, nodes) && Up(m, m.depth - n.depth - 1, nodes) == c
      ensures m == c || m in w
    {
      BelowSplit(m, n, nodes);
    }
  }

  /** Appending a child and its walk covers that child's name too. */
  lemma CoversStep(n: DTree, s: seq<DTree>, keys: set<string>, k: string, w: seq<DTree>, nodes: set<DTree>)
    requires Closed(nodes) && n in nodes && k in keys && keys <= n.children.Keys
    requires Covers(n, s, keys, nodes)
    requires forall m :: m in w <==> m in nodes && Below(m, n.children[k], nodes)
    ensures Covers(n, s + [n.children[k]] + w, keys - {k}, nodes)
    ensures n.children[k] !in s && n.children[k] !in w
    ensures forall m :: m in w ==> m !in s
  {
    var c := n.children[k];
    UnderChild(n, c, w, nodes);
    CoversApart(n, s, keys, k, w, nodes);
    var t := s + [c] + w;
    forall m | m in t
      ensures m in nodes && Below(m, n, nodes) && Up(m, m.depth - n.depth - 1, nodes).name !in keys - {k}
    {
      if m !in s {
        assert m == c || m in w;
      }
    }
    forall m | m in nodes && Below(m, n, nodes) && Up(m, m.depth - n.depth - 1, nodes).name !in keys - {k}
      ensures m in t
    {
      var a := Up(m, m.depth - n.depth - 1, nodes);
      if a.name == k {
        BelowSplit(m, n, nodes);
        assert a == c;
      }
    }
  }

  /** A child still to be walked, and its walk, are not yet in `s`. */
  lemma CoversApart(n: DTree, s: seq<DTree>, keys: set<string>, k: string, w: seq<DTree>, nodes: set<DTree>)
    requires Closed(nodes) && n in nodes && k in keys && keys <= n.children.Keys
    requires Covers(n, s, keys, nodes)
    requires forall m :: m in nodes && Below(m, n, nodes) && Up(m, m.depth - n.depth - 1, nodes) == n.children[k] ==>
               m == n.children[k] || m in w
    requires Below(n.children[k], n, nodes) && Up(n.children[k], n.children[k].depth - n.depth - 1, nodes) == n.children[k]
    requires forall m :: m in w ==> m in nodes && Below(m, n, nodes) && Up(m, m.depth - n.depth - 1, nodes) == n.children[k]
    requires forall m :: m in w ==> m.depth > n.children[k].depth
    ensures n.children[k] !in s && n.children[k] !in w
    ensures forall m :: m in w ==> m !in s
  {
    assert n.children[k].name == k;
  }

  /** Before any child is walked, every directory below `n` lies under a child still to come. */
  lemma CoversStart(n: DTree, nodes: set<DTree>)
    requires Closed(nodes) && n in nodes
    ensures Covers(n, [], n.children.Keys, nodes)
  {
    forall m | m in nodes && Below(m, n, nodes)
      ensures Up(m, m.depth - n.depth - 1, nodes).name in n.children.Keys
    {
      BelowSplit(m, n, nodes);
    }
  }

  /** Appending a child and its walk adds that child's size to the files seen so far. */
  lemma FilesStep(n: DTree, s: seq<DTree>, keys: set<string>, k: string, w: seq<DTree>, nodes: set<DTree>)
    requires Closed(nodes) && n in nodes && k in keys && keys <= n.children.Keys
    requires FilesAlong(s) + SumOver(ChildSizes(n, nodes), keys) == SumOver(ChildSizes(n, nodes), n.children.Keys)
    requires FileTotal(n.children[k]) + FilesAlong(w) == Size(n.children[k], nodes)
    ensures FilesAlong(s + [n.children[k]] + w) + SumOver(ChildSizes(n, nodes), keys - {k})
         == SumOver(ChildSizes(n, nodes), n.children.Keys)
  {
    var c := n.children[k];
    SumOverRemove(ChildSizes(n, nodes), keys, k);
    FilesAlongAppend(s + [c], w);
    FilesAlongAppend(s, [c]);
    assert FilesAlong([c]) == FileTotal(c) by {
      assert [c][1..] == [];
    }
  }

  /** What the walk knows after each child: one step of its loop. */
  ghost predicate Walked(n: DTree, s: seq<DTree>, keys: set<string>, nodes: set<DTree>)
    reads nodes
    requires Closed(nodes) && n in nodes && keys <= n.children.Keys
  {
    && Covers(n, s, keys, nodes)
    && NoDuplicates(s)
    && ParentsFirst(n, s)
    && FilesAlong(s) + SumOver(ChildSizes(n, nodes), keys) == SumOver(ChildSizes(n, nodes), n.children.Keys)
  }

  lemma WalkStep(n: DTree, s: seq<DTree>, keys: set<string>, k: string, w: seq<DTree>, nodes: set<DTree>)
    requires Closed(nodes) && n in nodes && k in keys && keys <= n.children.Keys
    requires Walked(n, s, keys, nodes)
    requires forall m :: m in w <==> m in nodes && Below(m, n.children[k], nodes)
    requires NoDuplicates(w) && ParentsFirst(n.children[k], w)
    requires FileTotal(n.children[k]) + FilesAlong(w) == Size(n.children[k], nodes)
    ensures Walked(n, s + [n.children[k]] + w, keys - {k}, nodes)
  {
    var c := n.children[k];
    CoversStep(n, s, keys, k, w, nodes);
    NoDuplicatesExtend(s, c, w);
    ParentsFirstExtend(n, s, c, w);
    FilesStep(n, s, keys, k, w, nodes);
  }

  /**
   * `__iter__`: every proper descendant of `n` exactly once, each child
   * followed at once by its own walk, so that parents come before their
   * children.  Along the way, the root's size is the sum of all files.
   */
  method Walk(n: DTree, ghost nodes: set<DTree>) returns (s: seq<DTree>)
    requires Closed(nodes) && n in nodes
    ensures forall m :: m in s <==> m in nodes && Below(m, n, nodes)
    ensures NoDuplicates(s)
    ensures ParentsFirst(n, s)
    ensures FileTotal(n) + FilesAlong(s) == Size(n, nodes)
    decreases Deeper(nodes, n.depth)
  {
    s := [];
    var keys := n.children.Keys;
    CoversStart(n, nodes);
    while keys != {}
      invariant keys <= n.children.Keys
      invariant Walked(n, s, keys, nodes)
      decreases keys
    {
      var k :| k in keys;
      var c := n.children[k];
      DeeperShrinks(nodes, n, c);
      var w := Walk(c, nodes);
      WalkStep(n, s, keys, k, w, nodes);
      s := s + [c] + w;
      keys := keys - {k};
    }
  }

  /** Part 1 counts the directories whose size is strictly under this. */
  const SmallLimit := 100000

  /** Part 2: the 70000000 of the disk less the 30000000 the update needs. */
  const Headroom := 40000000

  /** The sizes of the directories along a walk, in the walk's order. */
  ghost function SizesAlong(s: seq<DTree>, nodes: set<DTree>): (sizes: seq<int>)
    reads nodes
    requires Closed(nodes) && forall m :: m in s ==> m in nodes
    ensures |sizes| == |s|
  {
    if s == [] then [] else SizesAlong(s[..|s| - 1], nodes) + [Size(s[|s| - 1], nodes)]
  }

  /** Part 1: the sum of the sizes strictly under `SmallLimit`. */
  function SmallTotal(sizes: seq<int>): int
  {
    if sizes == [] then 0
    else
      var last := sizes[|sizes| - 1];
      SmallTotal(sizes[..|sizes| - 1]) + (if last < SmallLimit then last else 0)
  }

  lemma {:induction false} SmallTotalAppend(a: seq<int>, b: seq<int>)
    ensures SmallTotal(a + b) == SmallTotal(a) + SmallTotal(b)
    decreases |b|
  {
    if b == [] {
      assert a + b == a;
    } else {
      assert (a + b)[..|a + b| - 1] == a + b[..|b| - 1];
      SmallTotalAppend(a, b[..|b| - 1]);
    }
  }

  /**
   * The part 1 answer does not depend on the order of the walk, so the
   * order in which children are visited does not matter to it.
   */
  lemma {:induction false} SmallTotalPermutation(a: seq<int>, b: seq<int>)
    requires multiset(a) == multiset(b)
    ensures SmallTotal(a) == SmallTotal(b)
    decreases |a|
  {
    if a == [] {
      assert |b| == |multiset(b)| == 0;
    } else {
      var front, x := a[..|a| - 1], a[|a| - 1];
      assert a == front + [x];
      assert x in multiset(b);
      var j :| 0 <= j < |b| && b[j] == x;
      var rest := b[..j] + b[j + 1..];
      assert b == b[..j] + [x] + b[j + 1..];
      assert multiset(b) == multiset(b[..j]) + multiset{x} + multiset(b[j + 1..]);
      assert multiset(rest) == multiset(b[..j]) + multiset(b[j + 1..]);
      assert multiset(front) == multiset(a) - multiset{x};
      assert multiset(rest) == multiset(b) - multiset{x};
      SmallTotalPermutation(front, rest);
      SmallTotalAppend(b[..j] + [x], b[j + 1..]);
      SmallTotalAppend(b[..j], [x]);
      SmallTotalAppend(b[..j], b[j + 1..]);
      assert [x][..0] == [];
    }
  }

  /**
   * Part 2: the smallest size that, taken off `used`, leaves at most
   * `Headroom`; none when no size does (where the source's `min` fails).
   */
  function SmallestFreeing(sizes: seq<int>, used: int): Option<int>
  {
    if sizes == [] then None
    else
      var rest := SmallestFreeing(sizes[..|sizes| - 1], used);
      var last := sizes[|sizes| - 1];
      if Headroom + last <= used then rest
      else if rest.Some? && rest.value <= last then rest
      else Some(last)
  }

  /**
   * The part 2 answer is the least size that frees enough, and there is
   * none exactly when no size frees enough.
   */
  lemma {:induction false} SmallestFreeingIsLeast(sizes: seq<int>, used: int)
    ensures var r := SmallestFreeing(sizes, used);
            && (r.None? <==> forall i :: 0 <= i < |sizes| ==> Headroom + sizes[i] <= used)
            && (r.Some? ==> r.value in sizes && Headroom + r.value > used)
            && (r.Some? ==> forall i :: 0 <= i < |sizes| && Headroom + sizes[i] > used ==> r.value <= sizes[i])
  {
    if sizes != [] {
      var front := sizes[..|sizes| - 1];
      SmallestFreeingIsLeast(front, used);
      forall i | 0 <= i < |front|
        ensures sizes[i] == front[i]
      {
      }
    }
  }

  /** Part 2 does not depend on the order of the walk either. */
  lemma SmallestFreeingPermutation(a: seq<int>, b: seq<int>, used: int)
    requires multiset(a) == multiset(b)
    ensures SmallestFreeing(a, used) == SmallestFreeing(b, used)
  {
    var ra, rb := SmallestFreeing(a, used), SmallestFreeing(b, used);
    SmallestFreeingIsLeast(a, used);
    SmallestFreeingIsLeast(b, used);
    forall x | x in a ensures x in b {
      assert x in multiset(a);
    }
    forall x | x in b ensures x in a {
      assert x in multiset(b);
    }
    if ra.Some? {
      var i :| 0 <= i < |b| && b[i] == ra.value;
    }
    if rb.Some? {
      var j :| 0 <= j < |a| && a[j] == rb.value;
    }
  }

  /** The sum in part 1, over the directories of `order`. */
  method SumSmall(order: seq<DTree>, ghost nodes: set<DTree>) returns (total: int)
    requires Closed(nodes) && forall m :: m in order ==> m in nodes
    ensures total == SmallTotal(SizesAlong(order, nodes))
  {
    total := 0;
    for i := 0 to |order|
      invariant total == SmallTotal(SizesAlong(order[..i], nodes))
    {
      var size := ComputeSize(order[i], nodes);
      assert order[..i + 1][..i] == order[..i];
      if size < SmallLimit {
        total := total + size;
      }
    }
    assert order[..|order|] == order;
  }

  /** The `min` in part 2, over the directories of `order`; `None` where `min` would raise. */
  method MinFreeing(order: seq<DTree>, used: int, ghost nodes: set<DTree>) returns (answer: Option<int>)
    requires Closed(nodes) && forall m :: m in order ==> m in nodes
    ensures answer == SmallestFreeing(SizesAlong(order, nodes), used)
  {
    answer := None;
    for i := 0 to |order|
      invariant answer == SmallestFreeing(SizesAlong(order[..i], nodes), used)
    {
      var size := ComputeSize(order[i], nodes);
      assert order[..i + 1][..i] == order[..i];
      if Headroom + size > used && (answer.None? || size < answer.value) {
        answer := Some(size);
      }
    }
    assert order[..|order|] == order;
  }

  /** The sizes of the example's directories below `/`, in walk order: a, e, d. */
  const ExampleSizes: seq<int> := [94853, 584, 24933642]

  /** The example's `/` holds every file: 48381165 in all. */
  const ExampleUsed := 48381165

  lemma ExampleAnswers()
    ensures SmallTotal(ExampleSizes) == 95437
    ensures SmallestFreeing(ExampleSizes, ExampleUsed) == Some(24933642)
  {
    SmallestFreeingIsLeast(ExampleSizes, ExampleUsed);
    assert ExampleSizes[..2] == [94853, 584];
    assert ExampleSizes[..2][..1] == [94853];
    assert [94853][..0] == [];
  }

  /** How a line moves the current directory: one down for `cd x`, one up for `cd ..`. */
  function DepthChange(line: Line): int
  {
    if line == Cd("..") then -1 else if line.Cd? then 1 else 0
  }

  /** How many levels below the root the lines end, starting at the root. */
  function Depth(lines: seq<Line>): int
  {
    if lines == [] then 0 else Depth(lines[..|lines| - 1]) + DepthChange(lines[|lines| - 1])
  }

  /**
   * No prefix of the lines climbs above the root.  The source would step
   * to no directory there and fail at the next use of the current
   * directory, at the latest when asking for its root.
   */
  predicate StaysInside(lines: seq<Line>)
  {
    forall i :: 0 <= i <= |lines| ==> Depth(lines[..i]) >= 0
  }

  lemma DepthStep(lines: seq<Line>, i: nat)
    requires i < |lines| && StaysInside(lines)
    ensures Depth(lines[..i + 1]) == Depth(lines[..i]) + DepthChange(lines[i]) >= 0
  {
    assert lines[..i + 1][..i] == lines[..i];
    assert Depth(lines[..i + 1]) >= 0;
  }

  /** The lines the replay reads: all but the first, which only enters `/`. */
  function Session(lines: seq<Line>): (rest: seq<Line>)
    ensures forall l :: l in rest ==> l in lines
  {
    if lines == [] then [] else lines[1..]
  }

  /** The path of a directory below `/`, read from the bottom up: `Sub(p, x)` is `x` inside `p`. */
  datatype Path = Top | Sub(up: Path, name: string)

  /**
   * The session seen from outside the objects: the path of the current
   * directory, and the files of every directory met so far, by path.
   */
  datatype Shell = Shell(cwd: Path, dirs: map<Path, map<string, int>>)

  /** Before the first line: in `/`, which holds nothing yet. */
  const Start := Shell(Top, map[Top := map[]])

  /**
   * One line of the session: `cd x` steps into `x`, which is new and empty
   * the first time it is entered; `cd ..` steps back out; a size line sets
   * that file of the current directory; `$ ls` and `dir` lines change
   * nothing.
   */
  function Next(sh: Shell, line: Line): (after: Shell)
    ensures sh.dirs.Keys <= after.dirs.Keys <= sh.dirs.Keys + {after.cwd}
    ensures forall p :: p in sh.dirs && p != sh.cwd ==> after.dirs[p] == sh.dirs[p]
  {
    match line
    case Ls => sh
    case DirLine(_) => sh
    case Cd(target) =>
      if target == ".." then
        sh.(cwd := if sh.cwd == Top then Top else sh.cwd.up)
      else
        var p := Sub(sh.cwd, target);
        sh.(cwd := p, dirs := if p in sh.dirs then sh.dirs else sh.dirs[p := map[]])
    case FileLine(size, file) =>
      if sh.cwd in sh.dirs then sh.(dirs := sh.dirs[sh.cwd := sh.dirs[sh.cwd][file := size]]) else sh
  }

  /** `cd x` for a name other than `..`: the path grows by `x`, which is known from then on. */
  lemma NextEnter(sh: Shell, name: string)
    requires name != ".."
    ensures var p := Sub(sh.cwd, name);
            Next(sh, Cd(name)) == Shell(p, if p in sh.dirs then sh.dirs else sh.dirs[p := map[]])
  {
  }

  /** The session after `lines`, from an empty `/`. */
  function Run(lines: seq<Line>): (sh: Shell)
    ensures Top in sh.dirs
    ensures |sh.dirs| <= |lines| + 1
  {
    if lines == [] then Start else Next(Run(lines[..|lines| - 1]), lines[|lines| - 1])
  }

  /** The session one line further on is one more step of `Next`. */
  lemma RunStep(lines: seq<Line>, i: nat)
    requires i < |lines|
    ensures Run(lines[..i + 1]) == Next(Run(lines[..i]), lines[i])
  {
    assert lines[..i + 1][..i] == lines[..i];
  }

  /** `/` and the current directory are known, and so is the parent of every known directory. */
  predicate WellFormed(sh: Shell)
  {
    && Top in sh.dirs && sh.cwd in sh.dirs
    && forall p :: p in sh.dirs && p.Sub? ==> p.up in sh.dirs
  }

  lemma NextWellFormed(sh: Shell, line: Line)
    requires WellFormed(sh)
    ensures WellFormed(Next(sh, line))
  {
  }

  lemma {:induction false} RunWellFormed(lines: seq<Line>)
    ensures WellFormed(Run(lines))
  {
    if lines != [] {
      RunWellFormed(lines[..|lines| - 1]);
      NextWellFormed(Run(lines[..|lines| - 1]), lines[|lines| - 1]);
    }
  }

  /**
   * `at` gives the object of every path of `keys`: `Top` is the parentless
   * `root`, and each other path's object sits below the object of the path
   * above it, under the path's last name.  Only fields that never change
   * are read, so this survives every update of the replay.
   */
  ghost predicate Paths(at: map<Path, DTree>, root: DTree, nodes: set<DTree>, keys: set<Path>)
  {
    && at.Keys == keys
    && Top in at && at[Top] == root && root.parent == null
    && (forall p :: p in at ==> at[p] in nodes)
    && (forall p :: p in at && p.Sub? ==> p.up in at && at[p].parent == at[p.up] && at[p].name == p.name)
  }

  /** Paths are one per object: the parents and names decide the rest. */
  lemma {:induction false} PathsInjective(at: map<Path, DTree>, root: DTree, nodes: set<DTree>,
                                          keys: set<Path>, p: Path, q: Path)
    requires Paths(at, root, nodes, keys) && p in at && q in at && at[p] == at[q]
    ensures p == q
  {
    if p.Sub? && q.Sub? {
      PathsInjective(at, root, nodes, keys, p.up, q.up);
    }
  }

  /**
   * The objects mirror the session's directories path for path: each holds
   * its path's files, and each of its children is known by path too.
   */
  ghost predicate Mirrors(at: map<Path, DTree>, root: DTree, nodes: set<DTree>, sh: Shell)
    reads nodes
  {
    && Paths(at, root, nodes, sh.dirs.Keys)
    && (forall p :: p in at ==> at[p].files == sh.dirs[p])
    && (forall p, k :: p in at && k in at[p].children ==> Sub(p, k) in at)
  }

  /** `cd x` in the replay loop: the child `x` of `cwd`, made if needed; the tree stays a tree. */
  method EnterTree(cwd: DTree, name: string, ghost root: DTree, ghost nodes: set<DTree>)
    returns (child: DTree, ghost grown: set<DTree>)
    requires Tree(root, nodes) && cwd in nodes
    modifies cwd
    ensures Tree(root, grown) && child in grown && nodes <= grown && fresh(grown - nodes)
    ensures child.parent == cwd && child.name == name && child.depth == cwd.depth + 1
    ensures cwd.children == old(cwd.children)[name := child] && cwd.files == old(cwd.files)
    ensures name in old(cwd.children) ==> child == old(cwd.children)[name] && grown == nodes
    ensures name !in old(cwd.children) ==>
              fresh(child) && grown == nodes + {child} && child.children == map[] && child.files == map[]
  {
    ghost var had := name in cwd.children;
    child := cwd.Mkdir(name);
    grown := if had then nodes else nodes + {child};
  }

  /** The same step seen from the session: the objects mirror it one line on. */
  method Enter(cwd: DTree, name: string, ghost root: DTree, ghost nodes: set<DTree>,
               ghost at: map<Path, DTree>, ghost sh: Shell)
    returns (child: DTree, ghost grown: set<DTree>, ghost at': map<Path, DTree>)
    requires Tree(root, nodes) && Mirrors(at, root, nodes, sh) && sh.cwd in at && at[sh.cwd] == cwd
    requires name != ".."
    modifies cwd
    ensures Tree(root, grown) && child in grown && nodes <= grown && fresh(grown - nodes)
    ensures child.parent == cwd && child.name == name && child.depth == cwd.depth + 1
    ensures cwd.children == old(cwd.children)[name := child] && cwd.files == old(cwd.files)
    ensures name in old(cwd.children) ==> child == old(cwd.children)[name] && grown == nodes
    ensures name !in old(cwd.children) ==>
              fresh(child) && grown == nodes + {child} && child.children == map[] && child.files == map[]
    ensures var after := Next(sh, Cd(name));
            Mirrors(at', root, grown, after) && after.cwd in at' && at'[after.cwd] == child
  {
    ghost var had := name in cwd.children;
    ghost var q := Sub(sh.cwd, name);
    assert q in at ==> name in cwd.children && cwd.children[name] == at[q];
    assert had ==> q in sh.dirs;
    NextEnter(sh, name);
    child, grown := EnterTree(cwd, name, root, nodes);
    if had {
      at' := at;
    } else {
      at' := at[q := child];
      forall p | p in at
        ensures at[p].files == sh.dirs[p]
      {
        assert at[p].files == old(at[p].files);
      }
      forall p, k | p in at && at[p] != cwd && k in at[p].children
        ensures Sub(p, k) in at
      {
        assert at[p].children == old(at[p].children);
      }
      MirrorsGrow(at, root, nodes, sh, cwd, name, child);
    }
  }

  /** After `mkdir` made `child` for `cd x`, the objects mirror the session one step on. */
  lemma MirrorsGrow(at: map<Path, DTree>, root: DTree, nodes: set<DTree>, sh: Shell,
                    cwd: DTree, name: string, child: DTree)
    requires Paths(at, root, nodes, sh.dirs.Keys) && sh.cwd in at && at[sh.cwd] == cwd
    requires name != ".." && Sub(sh.cwd, name) !in at && child !in nodes
    requires child.parent == cwd && child.name == name
    requires child.children == map[] && child.files == map[]
    requires forall p :: p in at ==> at[p].files == sh.dirs[p]
    requires forall p, k :: p in at && at[p] != cwd && k in at[p].children ==> Sub(p, k) in at
    requires forall k :: k in cwd.children ==> k == name || Sub(sh.cwd, k) in at
    ensures Mirrors(at[Sub(sh.cwd, name) := child], root, nodes + {child}, Next(sh, Cd(name)))
  {
    var q := Sub(sh.cwd, name);
    var at' := at[q := child];
    var after := Next(sh, Cd(name));
    assert after == Shell(q, sh.dirs[q := map[]]);
    forall p | p in at' && p.Sub?
      ensures p.up in at' && at'[p].parent == at'[p.up] && at'[p].name == p.name
    {
      if p != q {
        assert at'[p] == at[p];
      }
    }
    forall p | p in at'
      ensures at'[p].files == after.dirs[p]
    {
      if p != q {
        assert at'[p] == at[p];
      }
    }
    forall p, k | p in at' && k in at'[p].children
      ensures Sub(p, k) in at'
    {
      if p != q {
        assert at'[p] == at[p];
        if at[p] == cwd {
          PathsInjective(at, root, nodes, sh.dirs.Keys, p, sh.cwd);
        }
      }
    }
  }

  /** A listing line `size name` in the replay loop: the file is recorded; the tree stays a tree. */
  method Record(cwd: DTree, file: string, size: int, ghost root: DTree, ghost nodes: set<DTree>,
                ghost at: map<Path, DTree>, ghost sh: Shell)
    requires Tree(root, nodes) && Mirrors(at, root, nodes, sh) && sh.cwd in at && at[sh.cwd] == cwd
    modifies cwd
    ensures Tree(root, nodes)
    ensures cwd.files == old(cwd.files)[file := size] && cwd.children == old(cwd.children)
    ensures Mirrors(at, root, nodes, Next(sh, FileLine(size, file)))
  {
    forall p | p in at && at[p] == cwd
      ensures p == sh.cwd
    {
      PathsInjective(at, root, nodes, sh.dirs.Keys, p, sh.cwd);
    }
    cwd.Touch(file, size);
  }

  /**
   * One turn of the replay loop: `dir` and `$ ls` lines leave everything
   * as it is, `cd ..` moves to the parent, `cd x` enters (and perhaps makes)
   * the child `x`, and a size line records a file in the current directory.
   */
  method Apply(cwd: DTree, line: Line, ghost root: DTree, ghost nodes: set<DTree>,
               ghost at: map<Path, DTree>, ghost sh: Shell)
    returns (next: DTree, ghost grown: set<DTree>, ghost at': map<Path, DTree>)
    requires Tree(root, nodes) && Mirrors(at, root, nodes, sh) && sh.cwd in at && at[sh.cwd] == cwd
    requires cwd.depth + DepthChange(line) >= 0
    modifies cwd
    ensures Tree(root, grown) && next in grown && nodes <= grown && fresh(grown - nodes)
    ensures var after := Next(sh, line);
            Mirrors(at', root, grown, after) && after.cwd in at' && at'[after.cwd] == next
    ensures next.depth == cwd.depth + DepthChange(line)
    ensures line.Ls? || line.DirLine? ==> next == cwd && grown == nodes && unchanged(cwd)
    ensures line == Cd("..") ==> next == cwd.parent && grown == nodes && unchanged(cwd)
    ensures line.Cd? && line.target != ".." ==>
              && next.parent == cwd && next.name == line.target
              && cwd.children == old(cwd.children)[line.target := next] && cwd.files == old(cwd.files)
              && (line.target in old(cwd.children) ==> next == old(cwd.children)[line.target])
              && (line.target !in old(cwd.children) ==> fresh(next) && next.children == map[] && next.files == map[])
    ensures line.FileLine? ==>
              && next == cwd && grown == nodes
              && cwd.files == old(cwd.files)[line.file := line.size] && cwd.children == old(cwd.children)
  {
    match line
    case Ls =>
      next, grown, at' := cwd, nodes, at;
    case DirLine(_) =>
      next, grown, at' := cwd, nodes, at;
    case Cd(target) =>
      if target == ".." {
        assert sh.cwd != Top;
        next, grown, at' := cwd.parent, nodes, at;
      } else {
        next, grown, at' := Enter(cwd, target, root, nodes, at, sh);
      }
    case FileLine(size, file) =>
      Record(cwd, file, size, root, nodes, at, sh);
      next, grown, at' := cwd, nodes, at;
  }

  /**
   * The state of the replay loop after the first `i` lines: a tree rooted
   * at `/`, the current directory as deep as the lines say, and the objects
   * mirroring the session record of those lines.
   */
  ghost predicate Replayed(rest: seq<Line>, i: nat, cwd: DTree, root: DTree, nodes: set<DTree>,
                           at: map<Path, DTree>, sh: Shell)
    reads nodes
  {
    && i <= |rest|
    && Tree(root, nodes) && cwd in nodes && root.name == "/"
    && cwd.depth == Depth(rest[..i])
    && sh == Run(rest[..i])
    && Mirrors(at, root, nodes, sh) && sh.cwd in at && at[sh.cwd] == cwd
  }

  /** One turn of the replay loop keeps its state one line further on. */
  method ReplayStep(rest: seq<Line>, i: nat, cwd: DTree, ghost root: DTree, ghost nodes: set<DTree>,
                    ghost at: map<Path, DTree>, ghost sh: Shell)
    returns (next: DTree, ghost grown: set<DTree>, ghost at': map<Path, DTree>, ghost sh': Shell)
    requires StaysInside(rest) && i < |rest| && Replayed(rest, i, cwd, root, nodes, at, sh)
    modifies cwd
    ensures Replayed(rest, i + 1, next, root, grown, at', sh') && nodes <= grown && fresh(grown - nodes)
  {
    DepthStep(rest, i);
    RunStep(rest, i);
    next, grown, at' := Apply(cwd, rest[i], root, nodes, at, sh);
    sh' := Next(sh, rest[i]);
  }

  /** A fresh root with nothing in it is a tree on its own. */
  lemma LoneRoot(root: DTree)
    requires root.parent == null && root.depth == 0 && root.children == map[]
    ensures Tree(root, {root})
  {
  }

  /** Before the replay loop: a fresh `/` alone, mirroring the empty record. */
  method Begin() returns (cwd: DTree, ghost root: DTree, ghost nodes: set<DTree>, ghost at: map<Path, DTree>)
    ensures Tree(root, nodes) && cwd in nodes && fresh(nodes) && root.name == "/" && cwd.depth == 0
    ensures Mirrors(at, root, nodes, Start) && Start.cwd in at && at[Start.cwd] == cwd
  {
    cwd := new DTree("/", null);
    root, nodes, at := cwd, {cwd}, map[Top := cwd];
    LoneRoot(root);
  }

  /**
   * The replay loop: from a fresh `/`, apply every line but the first.  The
   * objects built mirror the session's directories path for path.
   */
  method Replay(lines: seq<Line>)
    returns (cwd: DTree, ghost root: DTree, ghost nodes: set<DTree>, ghost at: map<Path, DTree>)
    requires StaysInside(Session(lines))
    ensures Tree(root, nodes) && cwd in nodes && fresh(nodes)
    ensures root.name == "/"
    ensures var sh := Run(Session(lines)); Mirrors(at, root, nodes, sh) && sh.cwd in at && at[sh.cwd] == cwd
  {
    cwd, root, nodes, at := Begin();
    var rest := Session(lines);
    ghost var sh := Start;
    assert Run(rest[..0]) == sh && Depth(rest[..0]) == 0;
    for i := 0 to |rest|
      invariant Replayed(rest, i, cwd, root, nodes, at, sh) && fresh(nodes)
    {
      cwd, nodes, at, sh := ReplayStep(rest, i, cwd, root, nodes, at, sh);
    }
    assert rest[..|rest|] == rest;
  }

  /** The number of names in a path. */
  function Len(p: Path): nat
  {
    if p == Top then 0 else Len(p.up) + 1
  }

  /** `q` is `p` or lies below it. */
  predicate Within(q: Path, p: Path)
  {
    q == p || (q.Sub? && Within(q.up, p))
  }

  lemma {:induction false} WithinLonger(q: Path, p: Path)
    requires Within(q, p)
    ensures Len(q) >= Len(p)
  {
    if q != p {
      WithinLonger(q.up, p);
    }
  }

  lemma {:induction false} WithinUp(q: Path, p: Path, k: string)
    requires Within(q, Sub(p, k))
    ensures Within(q, p)
  {
    if q != Sub(p, k) {
      WithinUp(q.up, p, k);
    }
  }

  /** The known directories at or below `p`. */
  ghost function Under(dirs: map<Path, map<string, int>>, p: Path): set<Path>
  {
    set q | q in dirs && Within(q, p)
  }

  /** Going one level down leaves fewer known directories below. */
  lemma UnderShrinks(dirs: map<Path, map<string, int>>, p: Path, k: string)
    requires p in dirs
    ensures Under(dirs, Sub(p, k)) < Under(dirs, p)
  {
    forall q | q in Under(dirs, Sub(p, k))
      ensures q in Under(dirs, p)
    {
      WithinUp(q, p, k);
    }
    if p in Under(dirs, Sub(p, k)) {
      WithinLonger(p, Sub(p, k));
    }
  }

  /** The names of the known directories one level below `p`. */
  ghost function SubNames(dirs: map<Path, map<string, int>>, p: Path): (names: set<string>)
    ensures forall k :: k in names <==> Sub(p, k) in dirs
  {
    var names := set q | q in dirs && q.Sub? && q.up == p :: q.name;
    assert forall k :: Sub(p, k) in dirs ==> k in names by {
      forall k | Sub(p, k) in dirs
        ensures k in names
      {
        var q := Sub(p, k);
        assert q.up == p && q.name == k;
      }
    }
    names
  }

  /**
   * `size` on the session's own record: the files of `p` plus the sizes
   * of the known directories one level below it.
   */
  ghost function DirSize(dirs: map<Path, map<string, int>>, p: Path): int
    requires p in dirs
    decreases Under(dirs, p), 1
  {
    SumOver(dirs[p], dirs[p].Keys) + SumOver(SubSizes(dirs, p), SubNames(dirs, p))
  }

  /** The size of each known directory one level below `p`, by name. */
  ghost function SubSizes(dirs: map<Path, map<string, int>>, p: Path): (sizes: map<string, int>)
    requires p in dirs
    ensures sizes.Keys == SubNames(dirs, p)
    decreases Under(dirs, p), 0
  {
    map k | k in SubNames(dirs, p) :: (UnderShrinks(dirs, p, k); DirSize(dirs, Sub(p, k)))
  }

  /** The size of every known directory, by path. */
  ghost function AllSizes(dirs: map<Path, map<string, int>>): (sizes: map<Path, int>)
    ensures sizes.Keys == dirs.Keys
  {
    map p | p in dirs :: DirSize(dirs, p)
  }

  /** The sizes at `keys`, in some order. */
  ghost function SizesIn(sizes: map<Path, int>, keys: set<Path>): seq<int>
    requires keys <= sizes.Keys
    decreases keys
  {
    if keys == {} then [] else var p :| p in keys; SizesIn(sizes, keys - {p}) + [sizes[p]]
  }

  /** Whichever key is taken last, the sizes are the same up to order. */
  lemma {:induction false} SizesInRemove(sizes: map<Path, int>, keys: set<Path>, p: Path)
    requires keys <= sizes.Keys && p in keys
    ensures multiset(SizesIn(sizes, keys)) == multiset(SizesIn(sizes, keys - {p})) + multiset{sizes[p]}
    decreases keys
  {
    var j :| j in keys && SizesIn(sizes, keys) == SizesIn(sizes, keys - {j}) + [sizes[j]];
    if j != p {
      var rest := keys - {j} - {p};
      assert keys - {p} - {j} == rest;
      SizesInRemove(sizes, keys - {j}, p);
      SizesInRemove(sizes, keys - {p}, j);
      calc {
        multiset(SizesIn(sizes, keys));
        multiset(SizesIn(sizes, keys - {j})) + multiset{sizes[j]};
        multiset(SizesIn(sizes, rest)) + multiset{sizes[p]} + multiset{sizes[j]};
        multiset(SizesIn(sizes, keys - {p})) + multiset{sizes[p]};
      }
    }
  }

  /**
   * Part 1 of the session: the sum of the sizes under `SmallLimit` of the
   * directories below `/`.
   */
  ghost function Part1Of(lines: seq<Line>): int
  {
    var sh := Run(Session(lines));
    RunWellFormed(Session(lines));
    SmallTotal(SizesIn(AllSizes(sh.dirs), sh.dirs.Keys - {Top}))
  }

  /**
   * Part 2 of the session: the smallest size of a directory below `/` that
   * frees enough of what `/` uses.
   */
  ghost function Part2Of(lines: seq<Line>): Option<int>
  {
    var sh := Run(Session(lines));
    RunWellFormed(Session(lines));
    SmallestFreeing(SizesIn(AllSizes(sh.dirs), sh.dirs.Keys - {Top}), DirSize(sh.dirs, Top))
  }

  /** Every object of the tree is the object of some path. */
  lemma {:induction false} Onto(at: map<Path, DTree>, root: DTree, nodes: set<DTree>, sh: Shell, n: DTree)
    requires Tree(root, nodes) && Mirrors(at, root, nodes, sh) && n in nodes
    ensures exists p :: p in at && at[p] == n
    decreases n.depth
  {
    if n.parent == null {
      assert at[Top] == n;
    } else {
      Onto(at, root, nodes, sh, n.parent);
      var up :| up in at && at[up] == n.parent;
      var q := Sub(up, n.name);
      assert n.name in at[up].children;
      assert q in at && at[q] in nodes && at[q].parent == n.parent && at[q].name == n.name;
      assert at[q] == n;
    }
  }

  /** The object of a path is as large as the session says that directory is. */
  lemma {:induction false} SizeMirrors(at: map<Path, DTree>, root: DTree, nodes: set<DTree>, sh: Shell, p: Path)
    requires Tree(root, nodes) && Mirrors(at, root, nodes, sh) && p in at
    ensures Size(at[p], nodes) == DirSize(sh.dirs, p)
    decreases Under(sh.dirs, p)
  {
    var n := at[p];
    var names := SubNames(sh.dirs, p);
    forall k | k in names
      ensures k in n.children && n.children[k] == at[Sub(p, k)]
    {
      var q := Sub(p, k);
      assert at[q] in nodes && at[q].parent == n && at[q].name == k;
    }
    assert n.children.Keys == names;
    var mine, theirs := ChildSizes(n, nodes), SubSizes(sh.dirs, p);
    forall k | k in names
      ensures mine[k] == theirs[k]
    {
      UnderShrinks(sh.dirs, p, k);
      SizeMirrors(at, root, nodes, sh, Sub(p, k));
    }
    assert mine == theirs;
  }

  /** The paths whose objects are in `s`. */
  ghost function PathsOf(at: map<Path, DTree>, s: seq<DTree>): set<Path>
  {
    set p | p in at && at[p] in s
  }

  /** Taking the last object off `s` takes its one path off `PathsOf(at, s)`. */
  lemma PathsOfSplit(at: map<Path, DTree>, root: DTree, nodes: set<DTree>, keys: set<Path>,
                     s: seq<DTree>, last: Path)
    requires Paths(at, root, nodes, keys) && NoDuplicates(s) && s != []
    requires last in at && at[last] == s[|s| - 1]
    ensures NoDuplicates(s[..|s| - 1])
    ensures last in PathsOf(at, s) && PathsOf(at, s) - {last} == PathsOf(at, s[..|s| - 1])
  {
    var front := s[..|s| - 1];
    assert s == front + [s[|s| - 1]];
    assert s[|s| - 1] !in front;
    forall p | p in PathsOf(at, s) && at[p] !in front
      ensures p == last
    {
      PathsInjective(at, root, nodes, keys, p, last);
    }
  }

  /** Up to order, the sizes along a walk are the session's sizes of the walked paths. */
  lemma {:induction false} SizesAlongMirror(at: map<Path, DTree>, root: DTree, nodes: set<DTree>, sh: Shell,
                                            s: seq<DTree>)
    requires Tree(root, nodes) && Mirrors(at, root, nodes, sh)
    requires (forall m :: m in s ==> m in nodes) && NoDuplicates(s)
    ensures PathsOf(at, s) <= sh.dirs.Keys
    ensures multiset(SizesAlong(s, nodes)) == multiset(SizesIn(AllSizes(sh.dirs), PathsOf(at, s)))
    decreases |s|
  {
    if s == [] {
      assert PathsOf(at, s) == {};
    } else {
      var front := s[..|s| - 1];
      Onto(at, root, nodes, sh, s[|s| - 1]);
      var last :| last in at && at[last] == s[|s| - 1];
      PathsOfSplit(at, root, nodes, sh.dirs.Keys, s, last);
      SizesAlongMirror(at, root, nodes, sh, front);
      SizesInRemove(AllSizes(sh.dirs), PathsOf(at, s), last);
      SizeMirrors(at, root, nodes, sh, last);
    }
  }

  /** The walk from `/` meets the object of every path but `Top`'s. */
  lemma WalkMirrors(at: map<Path, DTree>, root: DTree, nodes: set<DTree>, sh: Shell, walk: seq<DTree>)
    requires Tree(root, nodes) && Mirrors(at, root, nodes, sh)
    requires forall m :: m in walk <==> m in nodes && Below(m, root, nodes)
    requires NoDuplicates(walk)
    ensures multiset(SizesAlong(walk, nodes)) == multiset(SizesIn(AllSizes(sh.dirs), sh.dirs.Keys - {Top}))
  {
    EveryDirectoryBelowRoot(root, nodes);
    forall p | p in at
      ensures at[p] in walk <==> p != Top
    {
      if p != Top && at[p] == root {
        PathsInjective(at, root, nodes, sh.dirs.Keys, p, Top);
      }
    }
    assert PathsOf(at, walk) == sh.dirs.Keys - {Top};
    SizesAlongMirror(at, root, nodes, sh, walk);
  }

  /** The answers along the walk from `/` are the answers of the session's record. */
  lemma AnswersMirror(at: map<Path, DTree>, root: DTree, nodes: set<DTree>, lines: seq<Line>, walk: seq<DTree>)
    requires Tree(root, nodes) && Mirrors(at, root, nodes, Run(Session(lines)))
    requires forall m :: m in walk <==> m in nodes && Below(m, root, nodes)
    requires NoDuplicates(walk)
    ensures SmallTotal(SizesAlong(walk, nodes)) == Part1Of(lines)
    ensures SmallestFreeing(SizesAlong(walk, nodes), Size(root, nodes)) == Part2Of(lines)
  {
    var sh := Run(Session(lines));
    RunWellFormed(Session(lines));
    var sizes := SizesIn(AllSizes(sh.dirs), sh.dirs.Keys - {Top});
    WalkMirrors(at, root, nodes, sh, walk);
    SizeMirrors(at, root, nodes, sh, Top);
    SmallTotalPermutation(SizesAlong(walk, nodes), sizes);
    SmallestFreeingPermutation(SizesAlong(walk, nodes), sizes, Size(root, nodes));
  }

  /**
   * From the current directory, climb to the root, then walk the
   * directories below it for both parts.
   */
  method Survey(cwd: DTree, ghost root: DTree, ghost nodes: set<DTree>)
    returns (part1: int, part2: Option<int>, ghost walk: seq<DTree>)
    requires Tree(root, nodes) && cwd in nodes
    ensures forall m :: m in walk <==> m in nodes && Below(m, root, nodes)
    ensures NoDuplicates(walk)
    ensures part1 == SmallTotal(SizesAlong(walk, nodes))
    ensures part2 == SmallestFreeing(SizesAlong(walk, nodes), Size(root, nodes))
  {
    var top := Root(cwd, nodes);
    var order := Walk(top, nodes);
    walk := order;
    part1 := SumSmall(order, nodes);
    var used := ComputeSize(top, nodes);
    part2 := MinFreeing(order, used, nodes);
  }

  /**
   * The whole program: replay the session, then survey the tree it built.
   * Both answers are those of the session's own record of directories and
   * files.
   */
  method Solve(lines: seq<Line>) returns (part1: int, part2: Option<int>)
    requires StaysInside(Session(lines))
    ensures part1 == Part1Of(lines)
    ensures part2 == Part2Of(lines)
  {
    var cwd;
    ghost var root, nodes, at, walk;
    cwd, root, nodes, at := Replay(lines);
    part1, part2, walk := Survey(cwd, root, nodes);
    AnswersMirror(at, root, nodes, lines, walk);
  }
}
