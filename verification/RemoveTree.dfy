// Removing a directory tree with an explicit stack, over a modelled file system.
module RemoveTree {

  type Path = seq<string>

  datatype Kind = Directory | Other

  type Nodes = map<Path, Kind>

  ghost predicate Under(q: Path, root: Path) {
    |root| <= |q| && q[..|root|] == root
  }

  predicate ChildOf(q: Path, dir: Path) {
    |q| == |dir| + 1 && q[..|dir|] == dir
  }

  predicate HasChild(nodes: Nodes, dir: Path) {
    exists q :: q in nodes.Keys && ChildOf(q, dir)
  }

  predicate IsDots(name: string) {
    name == "." || name == ".."
  }

  ghost predicate Placed(nodes: Nodes, q: Path) {
    q != [] ==>
      && !IsDots(q[|q| - 1])
      && q[..|q| - 1] in nodes && nodes[q[..|q| - 1]] == Directory
  }

  // Every node but the top is a plainly named entry of a directory.
  ghost predicate Tree(nodes: Nodes) {
    forall q {:trigger Placed(nodes, q)} | q in nodes :: Placed(nodes, q)
  }

  // The path runs through directories as far as they exist, and does not end in a dot name there.
  predicate Addressed(nodes: Nodes, q: Path) {
    && (forall k | 0 <= k < |q| && q[..k] in nodes :: nodes[q[..k]] == Directory)
    && (q != [] && q[..|q| - 1] in nodes ==> !IsDots(q[|q| - 1]))
  }

  // Everything in the tree can be addressed.
  lemma {:induction false} TreeAddressed(nodes: Nodes, q: Path)
    requires Tree(nodes) && q in nodes
    ensures Addressed(nodes, q)
  {
    assert Placed(nodes, q);
    forall k | 0 <= k < |q|
      ensures q[..k] in nodes && nodes[q[..k]] == Directory
    {
      PrefixIsDirectory(nodes, q, k);
    }
  }

  lemma {:induction false} PrefixIsDirectory(nodes: Nodes, q: Path, k: nat)
    requires Tree(nodes) && q in nodes && k < |q|
    ensures q[..k] in nodes && nodes[q[..k]] == Directory
    decreases |q|
  {
    assert Placed(nodes, q);
    var parent := q[..|q| - 1];
    if k < |parent| {
      PrefixIsDirectory(nodes, parent, k);
      assert parent[..k] == q[..k];
    }
  }

  ghost predicate Distinct<T>(s: seq<T>) {
    forall i, j | 0 <= i < j < |s| :: s[i] != s[j]
  }

  // What is left when everything at and below `root` is removed.
  ghost function Without(nodes: Nodes, root: Path): Nodes {
    map q | q in nodes && !Under(q, root) :: nodes[q]
  }

  // A child keeps its directory in the tree, so a subtree ends when its root is gone.
  lemma {:induction false} RootGone(nodes: Nodes, root: Path, q: Path)
    requires Tree(nodes) && root !in nodes && Under(q, root)
    ensures q !in nodes
    decreases |q|
  {
    if q != root {
      var parent := q[..|q| - 1];
      assert q in nodes ==> Placed(nodes, q);
      assert parent[..|root|] == q[..|root|];
      RootGone(nodes, root, parent);
    }
  }

  // The listed children of a directory, all directories themselves.
  ghost predicate Frame(nodes: Nodes, dir: Path, names: seq<Path>) {
    && (forall n | n in names :: |n| == 1 && dir + n in nodes && nodes[dir + n] == Directory)
    && Distinct(names)
    && (forall q | q in nodes && ChildOf(q, dir) :: q[|dir|..] in names)
  }

  datatype DirAndIterator = DirAndIterator(dir: Path, dirEntryStart: nat)

  ghost function Current(base: Path, stack: seq<DirAndIterator>): Path {
    if stack == [] then base else stack[|stack| - 1].dir
  }

  ghost function CurrentStart(stack: seq<DirAndIterator>): nat {
    if stack == [] then 0 else stack[|stack| - 1].dirEntryStart
  }

  // The starts partition the entries: those from a directory's start up to the next one are what
  // is left in that directory, and the last of them is the directory that comes next on the stack.
  ghost predicate Partition(nodes: Nodes, base: Path, path: Path, stack: seq<DirAndIterator>, entries: seq<Path>) {
    if stack == [] then entries == [path]
    else
      var top, rest := stack[|stack| - 1], stack[..|stack| - 1];
      && CurrentStart(rest) < top.dirEntryStart <= |entries|
      && top.dir == Current(base, rest) + entries[top.dirEntryStart - 1]
      && Frame(nodes, top.dir, entries[top.dirEntryStart..])
      && Partition(nodes, base, path, rest, entries[..top.dirEntryStart])
  }

  lemma {:induction false} Unfold(nodes: Nodes, base: Path, path: Path, stack: seq<DirAndIterator>, entries: seq<Path>)
    requires Partition(nodes, base, path, stack, entries) && stack != []
    ensures var top, rest := stack[|stack| - 1], stack[..|stack| - 1];
      && CurrentStart(rest) < top.dirEntryStart <= |entries|
      && Current(base, stack) == top.dir && CurrentStart(stack) == top.dirEntryStart
      && top.dir == Current(base, rest) + entries[..top.dirEntryStart][top.dirEntryStart - 1]
      && Frame(nodes, top.dir, entries[top.dirEntryStart..])
      && Partition(nodes, base, path, rest, entries[..top.dirEntryStart])
  {
    hide Frame;
  }

  lemma {:induction false} Fold(nodes: Nodes, base: Path, path: Path, stack: seq<DirAndIterator>, entries: seq<Path>,
             rest: seq<DirAndIterator>, top: DirAndIterator, below: seq<Path>, names: seq<Path>)
    requires stack != [] && stack[..|stack| - 1] == rest && stack[|stack| - 1] == top
    requires top.dirEntryStart <= |entries|
    requires entries[..top.dirEntryStart] == below && entries[top.dirEntryStart..] == names
    requires Partition(nodes, base, path, rest, below) && CurrentStart(rest) < top.dirEntryStart
    requires top.dir == Current(base, rest) + entries[top.dirEntryStart - 1]
    requires Frame(nodes, top.dir, names)
    ensures Partition(nodes, base, path, stack, entries)
  {
    hide Frame, Current, CurrentStart;
  }

  // The entry that the loop takes: below the root, and one level deeper for each stacked directory.
  lemma {:induction false} TopEntry(nodes: Nodes, base: Path, path: Path, stack: seq<DirAndIterator>,
                                    entries: seq<Path>)
    requires Partition(nodes, base, path, stack, entries) && CurrentStart(stack) < |entries|
    ensures var q := Current(base, stack) + entries[|entries| - 1];
      && |q| == |base| + |path| + |stack| && Under(q, base + path)
      && (stack == [] ==> q == base + path && |entries| == 1)
      && (stack != [] ==> q in nodes && nodes[q] == Directory && ChildOf(q, Current(base, stack)))
  {
    hide Frame, Partition;
    if stack == [] {
      OnlyPath(nodes, base, path, entries);
    } else {
      Unfold(nodes, base, path, stack, entries);
      var top, rest := stack[|stack| - 1], stack[..|stack| - 1];
      TopEntry(nodes, base, path, rest, entries[..top.dirEntryStart]);
      var names := entries[top.dirEntryStart..];
      assert entries[|entries| - 1] == names[|names| - 1];
      FrameNames(nodes, top.dir, names);
      ChildUnder(top.dir + entries[|entries| - 1], top.dir, base + path);
    }
  }

  lemma {:induction false} OnlyPath(nodes: Nodes, base: Path, path: Path, entries: seq<Path>)
    requires Partition(nodes, base, path, [], entries)
    ensures entries == [path] && base + entries[|entries| - 1] == base + path
  {
  }

  lemma ChildUnder(q: Path, dir: Path, root: Path)
    requires ChildOf(q, dir) && Under(dir, root)
    ensures Under(q, root)
  {
    assert q[..|dir|][..|root|] == q[..|root|];
  }

  lemma {:induction false} FrameNames(nodes: Nodes, dir: Path, names: seq<Path>)
    requires Frame(nodes, dir, names) && names != []
    ensures var q := dir + names[|names| - 1];
      q in nodes && nodes[q] == Directory && ChildOf(q, dir)
  {
    assert names[|names| - 1] in names;
    assert (dir + names[|names| - 1])[..|dir|] == dir;
  }

  lemma {:induction false} CurrentDepth(nodes: Nodes, base: Path, path: Path, stack: seq<DirAndIterator>, entries: seq<Path>)
    requires Partition(nodes, base, path, stack, entries) && stack != []
    ensures |Current(base, stack)| == |base| + |path| + |stack| - 1 && Under(Current(base, stack), base + path)
  {
    hide Frame;
    var top, rest := stack[|stack| - 1], stack[..|stack| - 1];
    TopEntry(nodes, base, path, rest, entries[..top.dirEntryStart]);
  }

  // -------- The steps of the loop --------

  // Every entry of the directory on top is gone: the directory is empty.
  lemma {:induction false} PopKeeps(nodes: Nodes, base: Path, path: Path, stack: seq<DirAndIterator>, entries: seq<Path>)
    requires Partition(nodes, base, path, stack, entries) && stack != []
    requires CurrentStart(stack) == |entries|
    ensures Partition(nodes, base, path, stack[..|stack| - 1], entries)
    ensures !HasChild(nodes, Current(base, stack))
    ensures CurrentStart(stack[..|stack| - 1]) < |entries|
    ensures Current(base, stack) == Current(base, stack[..|stack| - 1]) + entries[|entries| - 1]
  {
    hide Frame, HasChild;
    assert entries[..|entries|] == entries;
    assert entries[|entries|..] == [];
    EmptyFrame(nodes, Current(base, stack));
  }

  lemma {:induction false} EmptyFrame(nodes: Nodes, dir: Path)
    requires Frame(nodes, dir, [])
    ensures !HasChild(nodes, dir)
  {
  }

  lemma {:induction false} FrameLosesLast(nodes: Nodes, dir: Path, names: seq<Path>)
    requires Frame(nodes, dir, names) && names != []
    ensures Frame(nodes - {dir + names[|names| - 1]}, dir, names[..|names| - 1])
  {
    var last := names[|names| - 1];
    var after := nodes - {dir + last};
    forall q | q in after && ChildOf(q, dir)
      ensures q[|dir|..] in names[..|names| - 1]
    {
      assert q[|dir|..] in names;
      assert q == dir + q[|dir|..];
    }
    forall n | n in names[..|names| - 1]
      ensures dir + n in after && |n| == 1 && after[dir + n] == Directory
    {
      assert n in names && n != last;
      assert (dir + n)[|dir|..] == n && (dir + last)[|dir|..] == last;
    }
  }

  // What happens to deeper nodes does not concern the stack.
  lemma {:induction false} PartitionStays(nodes: Nodes, base: Path, path: Path, stack: seq<DirAndIterator>,
                                          entries: seq<Path>, after: Nodes)
    requires Partition(nodes, base, path, stack, entries)
    requires forall q | q in nodes && |q| <= |base| + |path| + |stack| :: q in after && after[q] == nodes[q]
    requires after.Keys <= nodes.Keys
    ensures Partition(after, base, path, stack, entries)
  {
    hide Frame;
    if stack != [] {
      var top, rest := stack[|stack| - 1], stack[..|stack| - 1];
      PartitionStays(nodes, base, path, rest, entries[..top.dirEntryStart], after);
      CurrentDepth(nodes, base, path, stack, entries);
      FrameStays(nodes, top.dir, entries[top.dirEntryStart..], after);
    }
  }

  lemma {:induction false} FrameStays(nodes: Nodes, dir: Path, names: seq<Path>, after: Nodes)
    requires Frame(nodes, dir, names)
    requires forall q | q in nodes && |q| == |dir| + 1 :: q in after && after[q] == nodes[q]
    requires after.Keys <= nodes.Keys
    ensures Frame(after, dir, names)
  {
  }

  lemma {:induction false} Stacked(nodes: Nodes, base: Path, path: Path, rest: seq<DirAndIterator>, top: DirAndIterator,
                below: seq<Path>, names: seq<Path>)
    requires Partition(nodes, base, path, rest, below) && CurrentStart(rest) < |below| == top.dirEntryStart
    requires top.dir == Current(base, rest) + below[|below| - 1]
    requires Frame(nodes, top.dir, names)
    ensures Partition(nodes, base, path, rest + [top], below + names)
  {
    hide *;
    var stack, entries := rest + [top], below + names;
    assert stack[..|stack| - 1] == rest && stack[|stack| - 1] == top;
    assert entries[..top.dirEntryStart] == below && entries[top.dirEntryStart..] == names;
    Fold(nodes, base, path, stack, entries, rest, top, below, names);
  }

  // The last entry of the directory on top is removed.
  lemma {:induction false} RemoveKeeps(nodes: Nodes, base: Path, path: Path, stack: seq<DirAndIterator>, entries: seq<Path>)
    requires Partition(nodes, base, path, stack, entries) && stack != [] && CurrentStart(stack) < |entries|
    ensures Partition(nodes - {Current(base, stack) + entries[|entries| - 1]}, base, path, stack,
                      entries[..|entries| - 1])
  {
    hide *;
    Unfold(nodes, base, path, stack, entries);
    var top, rest := stack[|stack| - 1], stack[..|stack| - 1];
    var below, names := entries[..top.dirEntryStart], entries[top.dirEntryStart..];
    var q := top.dir + entries[|entries| - 1];
    var after := nodes - {q};
    assert names[|names| - 1] == entries[|entries| - 1];
    assert Frame(after, top.dir, names[..|names| - 1]) by {
      FrameLosesLast(nodes, top.dir, names);
    }
    assert Partition(after, base, path, rest, below) by {
      TopEntry(nodes, base, path, stack, entries);
      PartitionStays(nodes, base, path, rest, below, after);
    }
    Stacked(after, base, path, rest, top, below, names[..|names| - 1]);
    assert rest + [top] == stack && below + names[..|names| - 1] == entries[..|entries| - 1];
  }

  // The directory named by the last entry is opened and its entries are queued.
  lemma {:induction false} PushKeeps(nodes: Nodes, base: Path, path: Path, stack: seq<DirAndIterator>, entries: seq<Path>,
                  after: Nodes, names: seq<Path>)
    requires Partition(nodes, base, path, stack, entries) && CurrentStart(stack) < |entries|
    requires forall q | q in nodes && |q| <= |base| + |path| + |stack| :: q in after && after[q] == nodes[q]
    requires after.Keys <= nodes.Keys
    requires Frame(after, Current(base, stack) + entries[|entries| - 1], names)
    ensures Partition(after, base, path,
      stack + [DirAndIterator(Current(base, stack) + entries[|entries| - 1], |entries|)], entries + names)
  {
    hide Frame, Partition, Current, CurrentStart;
    var top := DirAndIterator(Current(base, stack) + entries[|entries| - 1], |entries|);
    PartitionStays(nodes, base, path, stack, entries, after);
    Stacked(after, base, path, stack, top, entries, names);
  }

  // -------- The file system --------

  // What the system permits and tells, the same throughout a removal.
  datatype Policy = Policy(
    denied: Path -> bool,      // removing the entry is not permitted
    unreadable: Path -> bool,  // the directory cannot be opened and read
    typeKnown: Path -> bool)   // a listing tells whether the entry is a directory

  datatype Status = Ok | NoEntity | NotEmpty | IsDirectory | Failed

  datatype Entry = Entry(name: string, knownDirectory: bool)

  ghost predicate Named(listing: seq<Entry>, name: string) {
    exists i :: 0 <= i < |listing| && listing[i].name == name
  }

  // A listing of a directory but for `rest`, in any order; it may also hold `.` and `..`.
  ghost predicate Lists(nodes: Nodes, dir: Path, listing: seq<Entry>, rest: set<string>) {
    && (forall i, j | 0 <= i < j < |listing| :: listing[i].name != listing[j].name)
    && (forall e | e in listing ::
          && e.name !in rest
          && (IsDots(e.name)
                || (dir + [e.name] in nodes && (e.knownDirectory ==> nodes[dir + [e.name]] == Directory))))
    && (forall q | q in nodes && ChildOf(q, dir) :: q[|dir|] in rest || Named(listing, q[|dir|]))
  }

  lemma {:induction false} OnlyDots(nodes: Nodes, dir: Path, rest: set<string>)
    requires Tree(nodes) && rest == set q | q in nodes.Keys && ChildOf(q, dir) :: q[|dir|]
    ensures Lists(nodes, dir, [Entry(".", true), Entry("..", true)], rest)
    ensures forall name | name in rest :: dir + [name] in nodes
  {
    forall name | name in rest
      ensures dir + [name] in nodes && !IsDots(name)
    {
      var q :| q in nodes.Keys && ChildOf(q, dir) && q[|dir|] == name;
      assert Placed(nodes, q) && q == dir + [name];
    }
  }

  lemma {:induction false} ListOne(nodes: Nodes, dir: Path, listing: seq<Entry>, rest: set<string>, e: Entry)
    requires Lists(nodes, dir, listing, rest) && e.name in rest
    requires dir + [e.name] in nodes && (e.knownDirectory ==> nodes[dir + [e.name]] == Directory)
    ensures Lists(nodes, dir, listing + [e], rest - {e.name})
  {
    var after := listing + [e];
    assert after[|listing|] == e;
    forall name | name == e.name || Named(listing, name)
      ensures Named(after, name)
    {
      if name != e.name {
        var i :| 0 <= i < |listing| && listing[i].name == name;
        assert after[i].name == name;
      }
    }
    forall i | 0 <= i < |listing|
      ensures listing[i].name != e.name
    {
      assert listing[i] in listing;
    }
  }

  ghost predicate Holds(nodes: Nodes, dir: Path, n: Path) {
    |n| == 1 && dir + n in nodes
  }

  // The children of `dir` are those in `names`, known to be directories, those in `unknown`, and
  // those still to come from the listing.
  ghost predicate Queue(nodes: Nodes, dir: Path, names: seq<Path>, unknown: seq<Path>, more: seq<Entry>) {
    && (forall n | n in names :: Holds(nodes, dir, n) && nodes[dir + n] == Directory && n !in unknown)
    && (forall n | n in unknown :: Holds(nodes, dir, n))
    && Distinct(names) && Distinct(unknown)
    && (forall i, j | 0 <= i < j < |more| :: more[i].name != more[j].name)
    && (forall e | e in more ::
          && [e.name] !in names && [e.name] !in unknown
          && (IsDots(e.name)
                || (dir + [e.name] in nodes && (e.knownDirectory ==> nodes[dir + [e.name]] == Directory))))
    && (forall q | q in nodes && ChildOf(q, dir) ::
          q[|dir|..] in names || q[|dir|..] in unknown || Named(more, q[|dir|]))
  }

  lemma {:induction false} QueueStart(nodes: Nodes, dir: Path, listing: seq<Entry>)
    requires Lists(nodes, dir, listing, {})
    ensures Queue(nodes, dir, [], [], listing)
  {
    hide Named;
  }

  lemma {:induction false} NamedRest(more: seq<Entry>, name: string)
    requires Named(more, name) && more != []
    ensures name == more[0].name || Named(more[1..], name)
  {
    var i :| 0 <= i < |more| && more[i].name == name;
    assert i > 0 ==> more[1..][i - 1].name == name;
  }

  // The next entry of the listing: `.` and `..` are left out, known directories join the names.
  lemma {:induction false} QueueDots(nodes: Nodes, dir: Path, names: seq<Path>, unknown: seq<Path>, more: seq<Entry>)
    requires Tree(nodes) && Queue(nodes, dir, names, unknown, more) && more != [] && IsDots(more[0].name)
    ensures Queue(nodes, dir, names, unknown, more[1..])
  {
    hide Named, Holds;
    forall q | q in nodes && ChildOf(q, dir)
      ensures q[|dir|..] in names || q[|dir|..] in unknown || Named(more[1..], q[|dir|])
    {
      assert Placed(nodes, q);
      if Named(more, q[|dir|]) {
        NamedRest(more, q[|dir|]);
      }
    }
    assert forall d | d in more[1..] :: d in more;
  }

  lemma {:induction false} QueueName(nodes: Nodes, dir: Path, names: seq<Path>, unknown: seq<Path>, more: seq<Entry>)
    requires Queue(nodes, dir, names, unknown, more) && more != [] && !IsDots(more[0].name)
    ensures more[0].knownDirectory ==> Queue(nodes, dir, names + [[more[0].name]], unknown, more[1..])
    ensures Queue(nodes, dir, names, unknown + [[more[0].name]], more[1..])
  {
    hide Named;
    var e, rest := more[0], more[1..];
    forall q | q in nodes && ChildOf(q, dir)
      ensures q[|dir|..] in names || q[|dir|..] in unknown || q[|dir|..] == [e.name] || Named(rest, q[|dir|])
    {
      if Named(more, q[|dir|]) {
        NamedRest(more, q[|dir|]);
      }
    }
    assert e in more && forall d | d in rest :: d in more && d.name != e.name;
  }

  // An unlinked entry is gone.
  lemma {:induction false} QueueUnlink(nodes: Nodes, dir: Path, names: seq<Path>, unknown: seq<Path>)
    requires Queue(nodes, dir, names, unknown, []) && unknown != []
    ensures var n := unknown[|unknown| - 1];
      Holds(nodes, dir, n) && Queue(nodes - {dir + n}, dir, names, unknown[..|unknown| - 1], [])
  {
    var n, rest := unknown[|unknown| - 1], unknown[..|unknown| - 1];
    assert n in unknown && forall i | 0 <= i < |rest| :: unknown[i] != n;
    var after := nodes - {dir + n};
    forall m | m in names || m in rest
      ensures m in names || m in unknown
      ensures dir + m in after
    {
      assert (dir + m)[|dir|..] == m && (dir + n)[|dir|..] == n;
    }
    forall q | q in nodes && ChildOf(q, dir)
      ensures q[|dir|..] == n ==> q !in after
      ensures q[|dir|..] in names || q[|dir|..] in rest || q[|dir|..] == n
    {
      assert q == dir + q[|dir|..];
    }
  }

  // An entry that cannot be unlinked because it is a directory joins the directories.
  lemma {:induction false} QueueMove(nodes: Nodes, dir: Path, names: seq<Path>, unknown: seq<Path>)
    requires Queue(nodes, dir, names, unknown, []) && unknown != []
    requires dir + unknown[|unknown| - 1] in nodes && nodes[dir + unknown[|unknown| - 1]] == Directory
    ensures Queue(nodes, dir, names + [unknown[|unknown| - 1]], unknown[..|unknown| - 1], [])
  {
    var n, rest := unknown[|unknown| - 1], unknown[..|unknown| - 1];
    assert n in unknown;
    var moved := names + [n];
    assert forall m :: m in moved <==> m in names || m == n;
    assert forall m :: m in unknown <==> m in rest || m == n;
  }

  lemma {:induction false} QueueEnd(nodes: Nodes, dir: Path, names: seq<Path>)
    requires Queue(nodes, dir, names, [], [])
    ensures Frame(nodes, dir, names)
  {
  }

  // Fewer nodes, and none missing outside `root`.
  ghost predicate Reduced(before: Nodes, nodes: Nodes, root: Path) {
    && nodes.Keys <= before.Keys
    && (forall q | q in nodes :: nodes[q] == before[q])
    && (forall q | q in before && !Under(q, root) :: q in nodes)
  }

  lemma {:induction false} RemoveLeaf(nodes: Nodes, q: Path)
    requires Tree(nodes) && !HasChild(nodes, q)
    ensures Tree(nodes - {q})
  {
    forall c | c in nodes - {q}
      ensures Placed(nodes - {q}, c)
    {
      assert Placed(nodes, c);
      assert c != [] ==> ChildOf(c, c[..|c| - 1]);
    }
  }

  // Only directories hold entries.
  lemma {:induction false} UnlinkedTree(nodes: Nodes, q: Path)
    requires Tree(nodes) && q in nodes && nodes[q] != Directory
    ensures Tree(nodes - {q})
  {
    forall c | c in nodes.Keys
      ensures !ChildOf(c, q)
    {
      assert Placed(nodes, c);
    }
    RemoveLeaf(nodes, q);
  }

  lemma {:induction false} ChildPath(dir: Path, name: Path)
    requires |name| == 1
    ensures ChildOf(dir + name, dir) && Under(dir + name, dir)
  {
  }

  // -------- What the loop has done so far --------

  // `visited` are the directories opened so far, `current` the one on top of the stack.
  ghost predicate Explored(before: Nodes, nodes: Nodes, policy: Policy,
                           root: Path, current: Path, visited: set<Path>) {
    && (forall q | q in visited ::
          && q in before && Under(q, root) && !policy.unreadable(q)
          && (q in nodes && HasChild(nodes, q) ==> Under(current, q)))
    && (forall q | q in before && q !in nodes ::
          !policy.denied(q) && (if q == root then before[q] == Directory else q != [] && q[..|q| - 1] in visited))
  }

  lemma {:induction false} FewerChildren(nodes: Nodes, after: Nodes, dir: Path)
    requires after.Keys <= nodes.Keys
    ensures HasChild(after, dir) ==> HasChild(nodes, dir)
  {
  }

  lemma {:induction false} ExploredPop(before: Nodes, nodes: Nodes, policy: Policy,
                                       root: Path, current: Path, visited: set<Path>, up: Path)
    requires Explored(before, nodes, policy, root, current, visited)
    requires !HasChild(nodes, current) && Under(current, up)
    requires |current| == |up| + 1 || |current| == |root|
    ensures Explored(before, nodes, policy, root, up, visited)
  {
    hide HasChild;
    forall q | q in visited && q in nodes && HasChild(nodes, q)
      ensures Under(up, q)
    {
      assert Under(current, q) && q != current;
      assert |q| < |current| by {
        assert current[..|current|] == current;
      }
      assert current[..|up|][..|q|] == current[..|q|];
    }
  }

  lemma {:induction false} ExploredRemove(before: Nodes, nodes: Nodes, policy: Policy,
                                          root: Path, current: Path, visited: set<Path>, gone: Path)
    requires Explored(before, nodes, policy, root, current, visited)
    requires gone in nodes && gone in before && !policy.denied(gone)
    requires if gone == root then before[gone] == Directory else ChildOf(gone, current) && current in visited
    ensures Explored(before, nodes - {gone}, policy, root, current, visited)
  {
    hide HasChild, Under;
    forall q | q in visited
      ensures HasChild(nodes - {gone}, q) ==> HasChild(nodes, q)
    {
      FewerChildren(nodes, nodes - {gone}, q);
    }
  }

  lemma {:induction false} ExploredPush(before: Nodes, nodes: Nodes, policy: Policy,
                                        root: Path, current: Path, visited: set<Path>, dir: Path, after: Nodes)
    requires Explored(before, nodes, policy, root, current, visited)
    requires dir in before && Under(dir, root) && !policy.unreadable(dir) && Under(dir, current)
    requires Reduced(nodes, after, dir) && nodes.Keys <= before.Keys
    requires forall q | q in nodes && q !in after :: ChildOf(q, dir) && !policy.denied(q)
    ensures Explored(before, after, policy, root, dir, visited + {dir})
  {
    hide HasChild, Under, Reduced;
    ReducedKeys(nodes, after, dir);
    var now := visited + {dir};
    forall q | q in now && q in after && HasChild(after, q)
      ensures Under(dir, q)
    {
      FewerChildren(nodes, after, q);
      UnderTrans(dir, current, q);
    }
    forall q | q in before && q !in after
      ensures !policy.denied(q) && (if q == root then before[q] == Directory else q != [] && q[..|q| - 1] in now)
    {
      if q in nodes {
        NotRoot(q, dir, root);
      }
    }
  }

  lemma {:induction false} ReducedKeys(before: Nodes, nodes: Nodes, root: Path)
    requires Reduced(before, nodes, root)
    ensures nodes.Keys <= before.Keys
  {
  }

  lemma {:induction false} UnderTrans(dir: Path, current: Path, q: Path)
    requires Under(dir, current)
    ensures Under(current, q) ==> Under(dir, q)
    ensures Under(dir, dir)
  {
    if Under(current, q) {
      assert dir[..|current|][..|q|] == dir[..|q|];
    }
  }

  lemma {:induction false} NotRoot(q: Path, dir: Path, root: Path)
    requires ChildOf(q, dir) && Under(dir, root)
    ensures q != root
  {
  }

  lemma {:induction false} NotYetOpened(before: Nodes, nodes: Nodes, policy: Policy,
                                        root: Path, current: Path, visited: set<Path>, dir: Path)
    requires Explored(before, nodes, policy, root, current, visited)
    requires dir in nodes && HasChild(nodes, dir) && |dir| > |current|
    ensures dir !in visited
  {
  }

  // What happens at and below the root does not change how the root is addressed.
  lemma {:induction false} SameAddress(before: Nodes, nodes: Nodes, root: Path)
    requires Reduced(before, nodes, root)
    ensures Addressed(before, root) <==> Addressed(nodes, root)
  {
    forall k | 0 <= k < |root|
      ensures root[..k] in before <==> root[..k] in nodes
    {
      assert !Under(root[..k], root);
    }
  }

  // There is nothing at `root`, or removing the tree there is permitted all the way down.
  ghost predicate Removable(nodes: Nodes, policy: Policy, root: Path) {
    && Addressed(nodes, root)
    && (root in nodes ==>
      && nodes[root] == Directory
      && forall q | q in nodes && Under(q, root) :: !policy.denied(q) && (policy.unreadable(q) ==> !HasChild(nodes, q)))
  }

  lemma {:induction false} AllRemoved(before: Nodes, nodes: Nodes, policy: Policy,
                                      root: Path, current: Path, visited: set<Path>)
    requires Explored(before, nodes, policy, root, current, visited)
    requires Tree(before) && Tree(nodes) && Reduced(before, nodes, root) && root !in nodes
    requires Addressed(before, root)
    ensures nodes == Without(before, root) && Removable(before, policy, root)
  {
    forall q | Under(q, root)
      ensures q !in nodes
    {
      RootGone(nodes, root, q);
    }
    forall q | q in before && Under(q, root) && HasChild(before, q)
      ensures !policy.unreadable(q)
    {
      var c :| c in before.Keys && ChildOf(c, q);
      ChildUnder(c, q, root);
      assert c !in nodes && c != root && c[..|c| - 1] == q;
    }
  }

  predicate EndsUp(path: Path) {
    path != [] && path[|path| - 1] == ".."
  }

  function RmdirStatus(nodes: Nodes, policy: Policy, dir: Path, path: Path): (status: Status)
    ensures status != IsDirectory
  {
    if EndsUp(path) then UpStatus(nodes, dir, path) else EntryStatus(nodes, policy, dir, path)
  }

  function EntryStatus(nodes: Nodes, policy: Policy, dir: Path, path: Path): (status: Status)
    ensures status != IsDirectory
  {
    var q := dir + path;
    if path == [] then NoEntity
    else if !Addressed(nodes, q) then Failed
    else if q !in nodes then NoEntity
    else if policy.denied(q) || nodes[q] != Directory then Failed
    else if HasChild(nodes, q) then NotEmpty
    else Ok
  }

  // A final `..` counts as a directory that is not empty, once the path before it leads to a
  // directory. A `..` alone is taken from the handle, whose directory need not exist any more.
  function UpStatus(nodes: Nodes, dir: Path, path: Path): (status: Status)
    requires path != []
    ensures status != IsDirectory && status != Ok
  {
    var walked := dir + path[..|path| - 1];
    if |path| == 1 then NotEmpty
    else if exists k :: 0 <= k <= |walked| && walked[..k] in nodes && nodes[walked[..k]] != Directory then Failed
    else if walked !in nodes then NoEntity
    else NotEmpty
  }

  // The directory that opening a path leads to; above the top there is only the top.
  function Opened(dir: Path, path: Path): Path {
    var q := dir + path;
    if !EndsUp(path) then q else if |q| >= 2 then q[..|q| - 2] else []
  }

  function UnlinkStatus(nodes: Nodes, policy: Policy, dir: Path, path: Path): Status {
    var q := dir + path;
    if path == [] then NoEntity
    else if !Addressed(nodes, q) then Failed
    else if q !in nodes then NoEntity
    else if policy.denied(q) then Failed
    else if nodes[q] == Directory then IsDirectory
    else Ok
  }

  // -------- What the loop keeps --------

  ghost predicate Removing(before: Nodes, nodes: Nodes, policy: Policy, base: Path, path: Path,
                           stack: seq<DirAndIterator>, entries: seq<Path>, visited: set<Path>) {
    && Tree(before) && Tree(nodes) && Reduced(before, nodes, base + path)
    && Partition(nodes, base, path, stack, entries)
    && Explored(before, nodes, policy, base + path, Current(base, stack), visited)
    && (forall k | 0 <= k < |stack| :: stack[k].dir in visited)
  }

  lemma {:induction false} StepStart(before: Nodes, policy: Policy, base: Path, path: Path)
    requires Tree(before)
    ensures Removing(before, before, policy, base, path, [], [path], {})
  {
  }

  lemma {:induction false} CurrentTop(base: Path, stack: seq<DirAndIterator>)
    ensures Current(base, stack) == if stack == [] then base else stack[|stack| - 1].dir
    ensures CurrentStart(stack) == if stack == [] then 0 else stack[|stack| - 1].dirEntryStart
  {
  }

  lemma {:induction false} StartInRange(before: Nodes, nodes: Nodes, policy: Policy, base: Path, path: Path,
                                        stack: seq<DirAndIterator>, entries: seq<Path>, visited: set<Path>)
    requires Removing(before, nodes, policy, base, path, stack, entries, visited)
    ensures CurrentStart(stack) <= |entries| && entries != []
    ensures stack == [] <==> CurrentStart(stack) == 0
  {
    hide Frame, Explored, Reduced, Tree;
    if stack != [] {
      Unfold(nodes, base, path, stack, entries);
    }
  }

  lemma {:induction false} StepPop(before: Nodes, nodes: Nodes, policy: Policy, base: Path, path: Path,
                                   stack: seq<DirAndIterator>, entries: seq<Path>, visited: set<Path>)
    requires Removing(before, nodes, policy, base, path, stack, entries, visited)
    requires CurrentStart(stack) == |entries| && stack != []
    ensures Removing(before, nodes, policy, base, path, stack[..|stack| - 1], entries, visited)
  {
    hide Frame, Explored, Reduced, Tree, HasChild, Partition;
    var rest := stack[..|stack| - 1];
    PopKeeps(nodes, base, path, stack, entries);
    var current, up := Current(base, stack), Current(base, rest);
    TopEntry(nodes, base, path, rest, entries);
    assert current == up + entries[|entries| - 1];
    assert current[..|up|] == up;
    ExploredPop(before, nodes, policy, base + path, current, visited, up);
  }

  // The entry was removed, or the root was not there: the loop goes on, or all is removed.
  lemma {:induction false} StepRemove(before: Nodes, nodes: Nodes, policy: Policy, base: Path, path: Path,
                                      stack: seq<DirAndIterator>, entries: seq<Path>, visited: set<Path>,
                                      status: Status)
    requires Removing(before, nodes, policy, base, path, stack, entries, visited)
    requires CurrentStart(stack) < |entries|
    requires status == EntryStatus(nodes, policy, Current(base, stack), entries[|entries| - 1])
    requires status == Ok || status == NoEntity
    requires path == [] && stack == [] ==> nodes == before
    ensures var q := Current(base, stack) + entries[|entries| - 1];
      var after := if status == Ok then nodes - {q} else nodes;
      var left := entries[..|entries| - 1];
      && Tree(after) && Reduced(before, after, base + path)
      && (status == Ok ==> q in nodes)
      && if stack == [] then
           && left == []
           && (path == [] || Removable(before, policy, base + path))
           && after == if path == [] then before else Without(before, base + path)
         else
           left != [] && status == Ok && Removing(before, after, policy, base, path, stack, left, visited)
  {
    hide Frame, Explored, Reduced, Tree, HasChild, Partition, Removable, Without, Addressed;
    var current := Current(base, stack);
    var q := current + entries[|entries| - 1];
    TopEntry(nodes, base, path, stack, entries);
    if status == Ok {
      ReducedRemove(before, nodes, base + path, q);
      RemoveLeaf(nodes, q);
      ExploredRemove(before, nodes, policy, base + path, current, visited, q);
    }
    if stack != [] {
      RemoveKeeps(nodes, base, path, stack, entries);
      StartInRange(before, nodes, policy, base, path, stack, entries, visited);
    } else if path != [] {
      var after := if status == Ok then nodes - {q} else nodes;
      OnlyPath(nodes, base, path, entries);
      SameAddress(before, nodes, base + path);
      AllRemoved(before, after, policy, base + path, current, visited);
    }
  }

  // The entry could be neither removed nor entered.
  lemma {:induction false} StepFailed(before: Nodes, nodes: Nodes, policy: Policy, base: Path, path: Path,
                                      stack: seq<DirAndIterator>, entries: seq<Path>, visited: set<Path>)
    requires Removing(before, nodes, policy, base, path, stack, entries, visited)
    requires CurrentStart(stack) < |entries|
    requires EntryStatus(nodes, policy, Current(base, stack), entries[|entries| - 1]) == Failed
    ensures !Removable(before, policy, base + path) && (stack == [] ==> path != [])
    ensures Tree(nodes) && Reduced(before, nodes, base + path)
  {
    hide Frame, Explored, Tree, HasChild, Partition, Under, Addressed;
    var q := Current(base, stack) + entries[|entries| - 1];
    TopEntry(nodes, base, path, stack, entries);
    OnlyWhenEmpty(nodes, base, path, stack, entries);
    SameAddress(before, nodes, base + path);
    if q in nodes {
      TreeAddressed(nodes, q);
      RootPresent(before, base + path, q);
    }
  }

  lemma {:induction false} RootPresent(nodes: Nodes, root: Path, q: Path)
    requires Tree(nodes) && Under(q, root) && q in nodes
    ensures root in nodes
  {
    if root !in nodes {
      RootGone(nodes, root, q);
    }
  }

  lemma {:induction false} OnlyWhenEmpty(nodes: Nodes, base: Path, path: Path, stack: seq<DirAndIterator>,
                                         entries: seq<Path>)
    requires Partition(nodes, base, path, stack, entries)
    ensures stack == [] ==> entries == [path]
  {
  }

  lemma {:induction false} StepOpen(before: Nodes, nodes: Nodes, policy: Policy, base: Path, path: Path,
                                    stack: seq<DirAndIterator>, entries: seq<Path>, visited: set<Path>)
    requires Removing(before, nodes, policy, base, path, stack, entries, visited)
    requires CurrentStart(stack) < |entries|
    requires EntryStatus(nodes, policy, Current(base, stack), entries[|entries| - 1]) == NotEmpty
    ensures stack == [] ==> path != []
    ensures var q := Current(base, stack) + entries[|entries| - 1];
      && q in before && q !in visited && Under(q, base + path) && base + path in before
      && (policy.unreadable(q) ==> !Removable(before, policy, base + path))
    ensures Tree(nodes) && Reduced(before, nodes, base + path)
  {
    hide Frame, Explored, Tree, HasChild, Partition, Under;
    var q := Current(base, stack) + entries[|entries| - 1];
    TopEntry(nodes, base, path, stack, entries);
    OnlyWhenEmpty(nodes, base, path, stack, entries);
    FewerChildren(before, nodes, q);
    RootPresent(before, base + path, q);
    NotYetOpened(before, nodes, policy, base + path, Current(base, stack), visited, q);
  }

  // What unlinking in a directory below the root does to the whole.
  lemma {:induction false} StepUnlinked(before: Nodes, nodes: Nodes, policy: Policy, root: Path, dir: Path,
                                        after: Nodes)
    requires Reduced(before, nodes, root) && Reduced(nodes, after, dir) && Under(dir, root)
    requires root in before
    ensures Reduced(before, after, root) && after.Keys <= nodes.Keys
    ensures (exists q :: q in nodes && ChildOf(q, dir) && policy.denied(q)) ==> !Removable(before, policy, root)
  {
    hide HasChild;
    forall q | Under(q, dir)
      ensures Under(q, root)
    {
      assert q[..|dir|][..|root|] == q[..|root|];
    }
    if q :| q in nodes && ChildOf(q, dir) && policy.denied(q) {
      assert Under(q, root);
    }
  }

  lemma {:induction false} StepPush(before: Nodes, nodes: Nodes, policy: Policy, base: Path, path: Path,
                                    stack: seq<DirAndIterator>, entries: seq<Path>, visited: set<Path>,
                                    after: Nodes, names: seq<Path>)
    requires Removing(before, nodes, policy, base, path, stack, entries, visited)
    requires CurrentStart(stack) < |entries| && Tree(after)
    requires var q := Current(base, stack) + entries[|entries| - 1];
      && q in before && !policy.unreadable(q) && Reduced(nodes, after, q) && Reduced(before, after, base + path)
      && (forall c | c in nodes && c !in after :: ChildOf(c, q) && !policy.denied(c))
      && Frame(after, q, names)
    ensures var q := Current(base, stack) + entries[|entries| - 1];
      Removing(before, after, policy, base, path, stack + [DirAndIterator(q, |entries|)], entries + names,
               visited + {q})
  {
    hide Frame, Explored, Tree, HasChild, Partition, Under, ChildOf;
    var current := Current(base, stack);
    var q := current + entries[|entries| - 1];
    var pushed := stack + [DirAndIterator(q, |entries|)];
    TopEntry(nodes, base, path, stack, entries);
    Extends(current, entries[|entries| - 1]);
    ExploredPush(before, nodes, policy, base + path, current, visited, q, after);
    ShallowStay(nodes, after, q);
    PushKeeps(nodes, base, path, stack, entries, after, names);
    assert pushed[|pushed| - 1].dir == q;
  }

  lemma {:induction false} Extends(dir: Path, name: Path)
    ensures Under(dir + name, dir)
  {
  }

  lemma {:induction false} ShallowStay(nodes: Nodes, after: Nodes, dir: Path)
    requires Reduced(nodes, after, dir)
    requires forall c | c in nodes && c !in after :: ChildOf(c, dir)
    ensures forall q | q in nodes && |q| <= |dir| :: q in after && after[q] == nodes[q]
  {
  }

  lemma {:induction false} ReducedRemove(before: Nodes, nodes: Nodes, root: Path, q: Path)
    requires Reduced(before, nodes, root) && q in nodes && Under(q, root)
    ensures Reduced(before, nodes - {q}, root) && q in before && before[q] == nodes[q]
  {
  }

  // -------- One turn of the loop --------

  datatype State = State(nodes: Nodes, stack: seq<DirAndIterator>, entries: seq<Path>)

  datatype Outcome = Going | Removed | Erred

  // What the body of the loop does to `s`.
  ghost predicate Turned(policy: Policy, base: Path, s: State, outcome: Outcome, s': State) {
    s.entries != [] &&
    if CurrentStart(s.stack) == |s.entries| then
      outcome == Going && s.stack != [] && s' == s.(stack := s.stack[..|s.stack| - 1])
    else
      var dir, path := Current(base, s.stack), s.entries[|s.entries| - 1];
      var left := s.entries[..|s.entries| - 1];
      match RmdirStatus(s.nodes, policy, dir, path)
      case Ok => s' == State(s.nodes - {dir + path}, s.stack, left) && outcome == if left == [] then Removed else Going
      case NoEntity => s' == s.(entries := left) && outcome == if left == [] then Removed else Going
      case NotEmpty => Descended(policy, Opened(dir, path), s, outcome, s')
      case _ => outcome == Erred && s'.nodes == s.nodes
  }

  // The directory is opened, what is not a directory there is unlinked, and the rest is queued.
  ghost predicate Descended(policy: Policy, dir: Path, s: State, outcome: Outcome, s': State) {
    if policy.unreadable(dir) then outcome == Erred && s'.nodes == s.nodes
    else
      && Reduced(s.nodes, s'.nodes, dir)
      && (forall q | q in s.nodes && q !in s'.nodes :: ChildOf(q, dir) && !policy.denied(q))
      && match outcome
         case Erred => exists q :: q in s.nodes && ChildOf(q, dir) && policy.denied(q)
         case Going =>
           && s'.stack == s.stack + [DirAndIterator(dir, |s.entries|)]
           && |s.entries| <= |s'.entries| && s'.entries[..|s.entries|] == s.entries
           && Frame(s'.nodes, dir, s'.entries[|s.entries|..])
         case Removed => false
  }

  ghost predicate UnderRemoval(before: Nodes, policy: Policy, base: Path, path: Path, s: State, visited: set<Path>) {
    Removing(before, s.nodes, policy, base, path, s.stack, s.entries, visited)
  }

  // A turn brings the end nearer: fewer nodes, or one more directory opened, or one less to finish.
  ghost predicate Nearer(before: Nodes, s: State, visited: set<Path>, s': State, visited': set<Path>) {
    || s'.nodes.Keys < s.nodes.Keys
    || (s'.nodes.Keys == s.nodes.Keys && before.Keys - visited' < before.Keys - visited)
    || (s'.nodes.Keys == s.nodes.Keys && visited' == visited && |s'.stack| < |s.stack|)
  }

  lemma {:induction false} EntryEndsPlain(before: Nodes, policy: Policy, base: Path, path: Path, s: State,
                                          visited: set<Path>)
    requires UnderRemoval(before, policy, base, path, s, visited) && CurrentStart(s.stack) < |s.entries|
    requires s.stack == [] ==> !EndsUp(path)
    ensures !EndsUp(s.entries[|s.entries| - 1])
  {
    hide Frame, Explored, Reduced, Partition, Under;
    TopEntry(s.nodes, base, path, s.stack, s.entries);
    OnlyWhenEmpty(s.nodes, base, path, s.stack, s.entries);
    if s.stack != [] {
      var dir, e := Current(base, s.stack), s.entries[|s.entries| - 1];
      assert Placed(s.nodes, dir + e);
      assert |e| == 1 && (dir + e)[|dir|] == e[0];
    }
  }

  // Every turn keeps the invariant, or ends the removal one way or the other.
  ghost predicate Progressed(before: Nodes, policy: Policy, base: Path, path: Path, s: State, outcome: Outcome,
                             s': State, visited: set<Path>, visited': set<Path>) {
    && Reduced(before, s'.nodes, base + path)
    && match outcome
       case Going => UnderRemoval(before, policy, base, path, s', visited') && Nearer(before, s, visited, s', visited')
       case Removed =>
         && s.stack == [] && (path == [] || Removable(before, policy, base + path))
         && s'.nodes == if path == [] then before else Without(before, base + path)
       case Erred => !Removable(before, policy, base + path) && (s.stack == [] ==> path != [])
  }

  lemma {:induction false} TurnKeeps(before: Nodes, policy: Policy, base: Path, path: Path, s: State,
                                     outcome: Outcome, s': State, visited: set<Path>)
    returns (visited': set<Path>)
    requires UnderRemoval(before, policy, base, path, s, visited) && Turned(policy, base, s, outcome, s')
    requires s.stack == [] ==> !EndsUp(path) && (path == [] ==> s.nodes == before)
    requires Tree(s'.nodes)
    ensures Progressed(before, policy, base, path, s, outcome, s', visited, visited')
    ensures path == [] && s.stack == [] ==> outcome == Removed
  {
    hide Frame, Explored, Reduced, Tree, HasChild, Partition, Removable, Without, Addressed, EntryStatus, UpStatus,
         Under, Current, CurrentStart, Progressed, Descended, EndsUp;
    visited' := visited;
    StartInRange(before, s.nodes, policy, base, path, s.stack, s.entries, visited);
    if CurrentStart(s.stack) == |s.entries| {
      TurnPops(before, policy, base, path, s, outcome, s', visited);
    } else {
      EntryEndsPlain(before, policy, base, path, s, visited);
      var dir, e := Current(base, s.stack), s.entries[|s.entries| - 1];
      OnlyWhenEmpty(s.nodes, base, path, s.stack, s.entries);
      EmptyEntry(s.nodes, policy, dir, e);
      var status := EntryStatus(s.nodes, policy, dir, e);
      assert RmdirStatus(s.nodes, policy, dir, e) == status;
      if status == Ok || status == NoEntity {
        TurnRemoves(before, policy, base, path, s, outcome, s', visited, status);
      } else if status == NotEmpty {
        visited' := TurnDescends(before, policy, base, path, s, outcome, s', visited);
      } else {
        TurnFails(before, policy, base, path, s, outcome, s', visited);
      }
    }
  }

  lemma EmptyEntry(nodes: Nodes, policy: Policy, dir: Path, e: Path)
    ensures e == [] ==> EntryStatus(nodes, policy, dir, e) == NoEntity
  {
  }

  lemma {:induction false} TurnPops(before: Nodes, policy: Policy, base: Path, path: Path, s: State,
                                    outcome: Outcome, s': State, visited: set<Path>)
    requires UnderRemoval(before, policy, base, path, s, visited) && s.stack != []
    requires CurrentStart(s.stack) == |s.entries| && outcome == Going
    requires s' == s.(stack := s.stack[..|s.stack| - 1])
    ensures Progressed(before, policy, base, path, s, outcome, s', visited, visited)
  {
    hide Frame, Explored, Reduced, Tree, Partition, Current, CurrentStart;
    StepPop(before, s.nodes, policy, base, path, s.stack, s.entries, visited);
  }

  lemma {:induction false} TurnRemoves(before: Nodes, policy: Policy, base: Path, path: Path, s: State,
                                       outcome: Outcome, s': State, visited: set<Path>, status: Status)
    requires UnderRemoval(before, policy, base, path, s, visited) && CurrentStart(s.stack) < |s.entries|
    requires status == EntryStatus(s.nodes, policy, Current(base, s.stack), s.entries[|s.entries| - 1])
    requires status == Ok || status == NoEntity
    requires path == [] && s.stack == [] ==> s.nodes == before
    requires var left := s.entries[..|s.entries| - 1];
      && s' == (if status == Ok then State(s.nodes - {Current(base, s.stack) + s.entries[|s.entries| - 1]}, s.stack, left)
                else s.(entries := left))
      && outcome == if left == [] then Removed else Going
    ensures Progressed(before, policy, base, path, s, outcome, s', visited, visited)
  {
    hide Frame, Explored, Reduced, Tree, HasChild, Partition, Removable, Without, Addressed, EntryStatus,
         Under, Current, CurrentStart, Removing;
    StepRemove(before, s.nodes, policy, base, path, s.stack, s.entries, visited, status);
  }

  lemma {:induction false} TurnFails(before: Nodes, policy: Policy, base: Path, path: Path, s: State,
                                     outcome: Outcome, s': State, visited: set<Path>)
    requires UnderRemoval(before, policy, base, path, s, visited) && CurrentStart(s.stack) < |s.entries|
    requires EntryStatus(s.nodes, policy, Current(base, s.stack), s.entries[|s.entries| - 1]) == Failed
    requires outcome == Erred && s'.nodes == s.nodes
    ensures Progressed(before, policy, base, path, s, outcome, s', visited, visited)
  {
    hide Frame, Explored, Reduced, Tree, HasChild, Partition, Removable, Without, Addressed, EntryStatus,
         Under, Current, CurrentStart, Removing;
    StepFailed(before, s.nodes, policy, base, path, s.stack, s.entries, visited);
  }

  lemma {:induction false} TurnDescends(before: Nodes, policy: Policy, base: Path, path: Path, s: State,
                                        outcome: Outcome, s': State, visited: set<Path>)
    returns (visited': set<Path>)
    requires UnderRemoval(before, policy, base, path, s, visited) && CurrentStart(s.stack) < |s.entries|
    requires var q := Current(base, s.stack) + s.entries[|s.entries| - 1];
      && EntryStatus(s.nodes, policy, Current(base, s.stack), s.entries[|s.entries| - 1]) == NotEmpty
      && Descended(policy, q, s, outcome, s')
    requires Tree(s'.nodes)
    ensures Progressed(before, policy, base, path, s, outcome, s', visited, visited')
  {
    hide Frame, Explored, Reduced, Tree, HasChild, Partition, Removable, Without, Addressed, EntryStatus,
         Under, Current, CurrentStart, Removing, ChildOf;
    visited' := visited;
    var q := Current(base, s.stack) + s.entries[|s.entries| - 1];
    StepOpen(before, s.nodes, policy, base, path, s.stack, s.entries, visited);
    if !policy.unreadable(q) {
      StepUnlinked(before, s.nodes, policy, base + path, q, s'.nodes);
      if outcome == Going {
        var names := s'.entries[|s.entries|..];
        StepPush(before, s.nodes, policy, base, path, s.stack, s.entries, visited, s'.nodes, names);
        assert s'.entries == s.entries + names;
        visited' := visited + {q};
        assert before.Keys - visited' < before.Keys - visited;
      }
    }
  }

  // -------- A path that ends in `..` --------

  // Everything below `dir` can be removed once `dir` is read.
  ghost predicate Drainable(nodes: Nodes, policy: Policy, dir: Path) {
    && !policy.unreadable(dir)
    && forall q | q in nodes && Under(q, dir) && q != dir ::
         !policy.denied(q) && (policy.unreadable(q) ==> !HasChild(nodes, q))
  }

  // What is left then.
  ghost function Drained(nodes: Nodes, dir: Path): Nodes {
    map q | q in nodes && (q == dir || !Under(q, dir)) :: nodes[q]
  }

  // The same permissions, but that `dir` itself could be removed.
  ghost function Sparing(policy: Policy, dir: Path): Policy {
    policy.(denied := q => q != dir && policy.denied(q))
  }

  lemma {:induction false} DrainableMeans(nodes: Nodes, policy: Policy, dir: Path)
    requires Tree(nodes) && dir in nodes && nodes[dir] == Directory && !policy.unreadable(dir)
    ensures Drainable(nodes, policy, dir) <==> Removable(nodes, Sparing(policy, dir), dir)
  {
    hide HasChild, Tree, Under, Addressed;
    TreeAddressed(nodes, dir);
  }

  // The state as it would be if the loop were removing the directory that `..` leads to.
  ghost function Seen(s: State): State {
    s.(entries := [[]] + if s.entries == [] then [] else s.entries[1..])
  }

  datatype Phase = Starting | Draining | Emptied | Repeating

  ghost predicate UpRun(before: Nodes, policy: Policy, base: Path, path: Path, s: State, visited: set<Path>,
                        phase: Phase)
    requires path != []
  {
    var dir := Opened(base, path);
    && (phase != Starting ==>
      && UpStatus(before, base, path) == NotEmpty
      && dir in before && before[dir] == Directory && !policy.unreadable(dir))
    && match phase
       case Starting => s == State(before, [], [path])
       case Draining =>
         && s.stack != [] && s.entries != [] && s.entries[0] == path && dir in s.nodes
         && UnderRemoval(before, Sparing(policy, dir), dir, [], Seen(s), visited)
       case Emptied => s == State(Drained(before, dir), [], [path]) && Drainable(before, policy, dir)
       case Repeating =>
         && s == State(Drained(before, dir), [DirAndIterator(dir, 1)], [path])
         && Drainable(before, policy, dir) && |path| == 1
  }

  // The entry taken below the directory, seen from it.
  lemma {:induction false} SeenEntry(before: Nodes, policy: Policy, base: Path, dir: Path, s: State, visited: set<Path>)
    requires UnderRemoval(before, policy, dir, [], Seen(s), visited) && s.stack != [] && s.entries != []
    ensures 1 <= CurrentStart(s.stack) <= |s.entries| && |Seen(s).entries| == |s.entries|
    ensures Current(base, s.stack) == Current(dir, s.stack)
    ensures CurrentStart(s.stack) < |s.entries| ==>
      var e := s.entries[|s.entries| - 1];
      var q := Current(base, s.stack) + e;
      && |s.entries| >= 2 && Seen(s).entries[|s.entries| - 1] == e && !EndsUp(e)
      && Under(q, dir) && q != dir
  {
    hide Frame, Explored, Reduced, Partition, Tree, Under, EndsUp, Addressed;
    var v := Seen(s);
    CurrentTop(base, s.stack);
    CurrentTop(dir, s.stack);
    StartInRange(before, v.nodes, policy, dir, [], v.stack, v.entries, visited);
    if CurrentStart(s.stack) < |s.entries| {
      EntryEndsPlain(before, policy, dir, [], v, visited);
      TopEntry(v.nodes, dir, [], v.stack, v.entries);
      assert dir + [] == dir;
    }
  }

  lemma {:induction false} SeenLess(s: State)
    requires |s.entries| >= 2
    ensures var left := s.entries[..|s.entries| - 1];
      && left != [] && left[0] == s.entries[0]
      && Seen(s).entries[..|s.entries| - 1] == Seen(s.(entries := left)).entries
  {
  }

  lemma {:induction false} SeenMore(s: State, s': State)
    requires s.entries != [] && |s.entries| <= |s'.entries| && s'.entries[..|s.entries|] == s.entries
    ensures s'.entries[0] == s.entries[0] && |Seen(s).entries| == |s.entries| && |Seen(s').entries| == |s'.entries|
    ensures Seen(s').entries[..|s.entries|] == Seen(s).entries
    ensures Seen(s').entries[|s.entries|..] == s'.entries[|s.entries|..]
  {
    assert s'.entries[..|s.entries|][0] == s'.entries[0];
    assert s'.entries[1..][..|s.entries| - 1] == s.entries[1..];
  }

  lemma {:induction false} SparingStatus(nodes: Nodes, policy: Policy, dir: Path, current: Path, e: Path)
    requires current + e != dir
    ensures EntryStatus(nodes, Sparing(policy, dir), current, e) == EntryStatus(nodes, policy, current, e)
  {
    hide Addressed, HasChild;
  }

  lemma {:induction false} SeenDescent(policy: Policy, dir: Path, q: Path, s: State, outcome: Outcome, s': State)
    requires s.entries != [] && Descended(policy, q, s, outcome, s') && Under(q, dir)
    ensures Descended(Sparing(policy, dir), q, Seen(s), outcome, Seen(s'))
    ensures q != dir && dir in s.nodes ==> dir in s'.nodes
    ensures outcome == Going ==> s'.entries != [] && s'.entries[0] == s.entries[0] && s'.stack != []
  {
    hide Frame, Reduced, ChildOf, Under;
    forall c | ChildOf(c, q)
      ensures c != dir
    {
      NotRoot(c, q, dir);
    }
    if outcome == Going && !policy.unreadable(q) {
      SeenMore(s, s');
    }
  }

  // A turn below the directory is the same turn as in the removal of it.
  lemma {:induction false} SeenTurn(before: Nodes, policy: Policy, base: Path, dir: Path, s: State,
                                    outcome: Outcome, s': State, visited: set<Path>)
    requires UnderRemoval(before, Sparing(policy, dir), dir, [], Seen(s), visited)
    requires s.stack != [] && s.entries != [] && Turned(policy, base, s, outcome, s')
    ensures Turned(Sparing(policy, dir), dir, Seen(s), outcome, Seen(s'))
    ensures dir in s.nodes ==> dir in s'.nodes
    ensures outcome == Going ==> s'.entries != [] && s'.entries[0] == s.entries[0]
    ensures outcome == Going && s'.stack == [] ==>
      CurrentStart(s.stack) == |s.entries| && s' == s.(stack := s.stack[..|s.stack| - 1])
  {
    hide UnderRemoval, Current, CurrentStart, EntryStatus, Descended, Under, Seen, Sparing, EndsUp;
    var sparing := Sparing(policy, dir);
    SeenEntry(before, sparing, base, dir, s, visited);
    SeenFields(s);
    SeenFields(s');
    if CurrentStart(s.stack) < |s.entries| {
      var e := s.entries[|s.entries| - 1];
      var q := Current(base, s.stack) + e;
      SparingStatus(s.nodes, policy, dir, Current(base, s.stack), e);
      SeenLess(s);
      if EntryStatus(s.nodes, policy, Current(base, s.stack), e) == NotEmpty {
        SeenDescent(policy, dir, q, s, outcome, s');
      }
    }
  }

  lemma SeenFields(s: State)
    ensures Seen(s).nodes == s.nodes && Seen(s).stack == s.stack && Seen(s).entries != []
    ensures Seen(s) == State(s.nodes, s.stack, Seen(s).entries)
    ensures forall nodes, stack :: Seen(State(nodes, stack, s.entries)).entries == Seen(s).entries
  {
  }

  // The path leads through `..` to `dir`, a directory.
  lemma {:induction false} OpenedUp(nodes: Nodes, base: Path, path: Path)
    requires Tree(nodes) && EndsUp(path) && UpStatus(nodes, base, path) == NotEmpty
    requires |path| == 1 ==> base in nodes && nodes[base] == Directory
    ensures var dir := Opened(base, path); dir in nodes && nodes[dir] == Directory
    ensures |path| > 1 ==>
      var walked := base + path[..|path| - 1];
      walked in nodes && Under(walked, Opened(base, path)) && walked != Opened(base, path)
  {
    var q, walked := base + path, base + path[..|path| - 1];
    assert q[..|q| - 1] == walked;
    if walked != [] {
      assert walked in nodes;
      assert Placed(nodes, walked);
      assert q[..|q| - 2] == walked[..|walked| - 1];
    }
  }

  // The first turn enters the directory, unless the path leads nowhere.
  lemma {:induction false} UpStarts(before: Nodes, policy: Policy, base: Path, path: Path, s: State,
                                    outcome: Outcome, s': State)
    requires Tree(before) && Tree(s'.nodes) && EndsUp(path) && UpStatus(before, base, path) == NotEmpty
    requires Opened(base, path) in before && before[Opened(base, path)] == Directory
    requires s == State(before, [], [path]) && Descended(policy, Opened(base, path), s, outcome, s')
    ensures Reduced(before, s'.nodes, Opened(base, path)) && outcome != Removed
    ensures outcome == Going ==> UpRun(before, policy, base, path, s', {Opened(base, path)}, Draining)
    ensures outcome == Erred ==> !Drainable(before, policy, Opened(base, path))
  {
    hide Frame, Tree, HasChild, Removable, Without, Addressed, UpStatus, EndsUp, Opened, Under, Explored, Partition,
         Reduced, ChildOf, Drainable;
    var dir := Opened(base, path);
    if policy.unreadable(dir) {
      Unchanged(before, policy, dir);
    } else {
      var sparing, v, v' := Sparing(policy, dir), Seen(s), Seen(s');
      UnderTrans(dir, dir, dir);
      SeenDescent(policy, dir, dir, s, outcome, s');
      StepStart(before, sparing, dir, []);
      assert v == State(before, [], [[]]) && dir + [] == dir;
      StepUnlinked(before, before, sparing, dir, dir, s'.nodes);
      DrainableMeans(before, policy, dir);
      if outcome == Going {
        var names := v'.entries[1..];
        StepPush(before, before, sparing, dir, [], [], [[]], {}, s'.nodes, names);
        assert v'.entries == [[]] + names && s'.stack == [] + [DirAndIterator(dir, 1)];
        assert {} + {dir} == {dir};
        assert s'.entries[..1] == [path];
        DirectoryStays(before, s'.nodes, dir);
      }
    }
  }

  lemma {:induction false} Unchanged(nodes: Nodes, policy: Policy, dir: Path)
    ensures Reduced(nodes, nodes, dir)
    ensures policy.unreadable(dir) ==> !Drainable(nodes, policy, dir)
  {
  }

  lemma {:induction false} DirectoryStays(nodes: Nodes, after: Nodes, dir: Path)
    requires dir in nodes && forall q | q in nodes && q !in after :: ChildOf(q, dir)
    ensures dir in after
  {
  }

  // The stack is empty again: nothing is left below the directory.
  lemma {:induction false} UpEmptied(before: Nodes, policy: Policy, dir: Path, s: State, s': State, visited: set<Path>)
    requires UnderRemoval(before, Sparing(policy, dir), dir, [], Seen(s), visited)
    requires dir in s.nodes && dir in before && before[dir] == Directory && !policy.unreadable(dir)
    requires s.entries != [] && s.stack != [] && CurrentStart(s.stack) == |s.entries|
    requires s'.nodes == s.nodes && s'.stack == s.stack[..|s.stack| - 1] == [] && s'.entries == s.entries
    ensures |s.entries| == 1 && s'.nodes == Drained(before, dir) && Drainable(before, policy, dir)
  {
    hide Frame, HasChild, Addressed, Under, Explored, Partition, Reduced, Tree, Removable, Drainable, Without;
    var sparing, v, nodes := Sparing(policy, dir), Seen(s), s.nodes;
    assert dir + [] == dir && |v.entries| == |s.entries|;
    PopKeeps(nodes, dir, [], v.stack, v.entries);
    OnlyWhenEmpty(nodes, dir, [], [], v.entries);
    StepPop(before, nodes, sparing, dir, [], v.stack, v.entries, visited);
    assert Current(dir, []) == dir;
    UnderTrans(dir, dir, dir);
    ReducedRemove(before, nodes, dir, dir);
    RemoveLeaf(nodes, dir);
    ExploredRemove(before, nodes, sparing, dir, dir, visited, dir);
    TreeAddressed(before, dir);
    AllRemoved(before, nodes - {dir}, sparing, dir, dir, visited);
    DrainableMeans(before, policy, dir);
    PutBack(before, nodes, dir);
  }

  lemma {:induction false} PutBack(before: Nodes, nodes: Nodes, dir: Path)
    requires dir in nodes && dir in before && before[dir] == nodes[dir] && nodes - {dir} == Without(before, dir)
    ensures nodes == Drained(before, dir)
  {
    assert Under(dir, dir);
    forall q
      ensures q in nodes <==> q in Drained(before, dir)
    {
      assert q in nodes - {dir} <==> q in Without(before, dir);
    }
    forall q | q in nodes
      ensures nodes[q] == before[q]
    {
      assert q != dir ==> (nodes - {dir})[q] == nodes[q];
    }
  }

  // Now the path leads nowhere, if there was a name before the `..`.
  lemma {:induction false} UpGone(before: Nodes, base: Path, path: Path)
    requires Tree(before) && EndsUp(path) && |path| > 1 && UpStatus(before, base, path) == NotEmpty
    ensures UpStatus(Drained(before, Opened(base, path)), base, path) == NoEntity
  {
    hide Tree;
    OpenedUp(before, base, path);
    var walked := base + path[..|path| - 1];
    var nodes := Drained(before, Opened(base, path));
    assert walked !in nodes;
  }

  // With `..` alone the directory is entered once more, in vain.
  lemma {:induction false} UpAgain(before: Nodes, policy: Policy, dir: Path, s: State, outcome: Outcome, s': State)
    requires Drainable(before, policy, dir) && s.nodes == Drained(before, dir) && |s.entries| == 1
    requires Descended(policy, dir, s, outcome, s')
    ensures outcome == Going && s' == State(s.nodes, s.stack + [DirAndIterator(dir, 1)], s.entries)
  {
    hide Reduced, HasChild;
    forall q | q in s.nodes
      ensures !ChildOf(q, dir)
    {
    }
    SameNodes(s.nodes, s'.nodes, dir);
    if outcome == Going {
      var names := s'.entries[1..];
      assert names == [] by {
        if names != [] {
          FrameNames(s'.nodes, dir, names);
        }
      }
      assert s'.entries == s'.entries[..1] + names;
    }
  }

  lemma {:induction false} SameNodes(nodes: Nodes, after: Nodes, dir: Path)
    requires Reduced(nodes, after, dir) && forall q | q in nodes :: q in after
    ensures after == nodes
  {
  }

  function Rank(phase: Phase): nat {
    match phase
    case Starting => 2
    case Draining => 1
    case _ => 0
  }

  // What a turn comes to: with a name before the `..` the end comes nearer or is reached; with `..`
  // alone there is no end but an error.
  ghost predicate UpProgressed(before: Nodes, policy: Policy, base: Path, path: Path, s: State, outcome: Outcome,
                               s': State, visited: set<Path>, visited': set<Path>, phase: Phase, phase': Phase)
    requires path != []
  {
    var dir := Opened(base, path);
    && (UpStatus(before, base, path) == NotEmpty || s'.nodes == before)
    && match outcome
       case Going =>
         && UpRun(before, policy, base, path, s', visited', phase')
         && ((|path| == 1 && Drainable(before, policy, dir)) || Rank(phase') < Rank(phase)
             || (phase' == phase == Draining && Nearer(before, s, visited, s', visited')))
       case Removed =>
         && s.stack == []
         && if UpStatus(before, base, path) == NotEmpty
            then |path| > 1 && Drainable(before, policy, dir) && s'.nodes == Drained(before, dir)
            else UpStatus(before, base, path) == NoEntity
       case Erred => if UpStatus(before, base, path) == NotEmpty then !Drainable(before, policy, dir)
                     else UpStatus(before, base, path) == Failed
  }

  lemma {:induction false} UpTurn(before: Nodes, policy: Policy, base: Path, path: Path, s: State,
                                  outcome: Outcome, s': State, visited: set<Path>, phase: Phase)
    returns (visited': set<Path>, phase': Phase)
    requires Tree(before) && Tree(s'.nodes) && EndsUp(path)
    requires |path| == 1 ==> base in before && before[base] == Directory
    requires UpRun(before, policy, base, path, s, visited, phase) && Turned(policy, base, s, outcome, s')
    ensures UpProgressed(before, policy, base, path, s, outcome, s', visited, visited', phase, phase')
    ensures Reduced(before, s'.nodes, Opened(base, path))
  {
    hide Tree, HasChild, Removable, Addressed, UpStatus, EndsUp, Under, Explored, Partition, Reduced, ChildOf,
         Drainable, Drained, UpRun, UpProgressed, Turned, Opened;
    visited', phase' := visited, phase;
    match phase
    case Starting => visited', phase' := UpTurnStarting(before, policy, base, path, s, outcome, s', visited);
    case Draining => visited', phase' := UpTurnDraining(before, policy, base, path, s, outcome, s', visited);
    case Emptied => phase' := UpTurnEmptied(before, policy, base, path, s, outcome, s', visited);
    case Repeating => phase' := UpTurnRepeating(before, policy, base, path, s, outcome, s', visited);
  }

  lemma {:induction false} UpTurnStarting(before: Nodes, policy: Policy, base: Path, path: Path, s: State,
                                          outcome: Outcome, s': State, visited: set<Path>)
    returns (visited': set<Path>, phase': Phase)
    requires Tree(before) && Tree(s'.nodes) && EndsUp(path)
    requires |path| == 1 ==> base in before && before[base] == Directory
    requires UpRun(before, policy, base, path, s, visited, Starting) && Turned(policy, base, s, outcome, s')
    ensures UpProgressed(before, policy, base, path, s, outcome, s', visited, visited', Starting, phase')
    ensures Reduced(before, s'.nodes, Opened(base, path))
  {
    hide Tree, HasChild, Removable, Addressed, UpStatus, Under, Explored, Partition, Reduced, ChildOf,
         Drainable, Drained, Opened, Descended;
    var dir := Opened(base, path);
    visited', phase' := {dir}, Draining;
    Unchanged(before, policy, dir);
    if UpStatus(before, base, path) == NotEmpty {
      OpenedUp(before, base, path);
      UpStarts(before, policy, base, path, s, outcome, s');
    }
  }

  lemma {:induction false} UpTurnDraining(before: Nodes, policy: Policy, base: Path, path: Path, s: State,
                                          outcome: Outcome, s': State, visited: set<Path>)
    returns (visited': set<Path>, phase': Phase)
    requires Tree(before) && Tree(s'.nodes) && EndsUp(path)
    requires UpRun(before, policy, base, path, s, visited, Draining) && Turned(policy, base, s, outcome, s')
    ensures UpProgressed(before, policy, base, path, s, outcome, s', visited, visited', Draining, phase')
    ensures Reduced(before, s'.nodes, Opened(base, path))
  {
    hide Tree, HasChild, Removable, Addressed, UpStatus, Under, Explored, Partition, Reduced, ChildOf,
         Drainable, Drained, Opened, Descended, Turned, UnderRemoval, Seen, Sparing, CurrentStart;
    var dir := Opened(base, path);
    var sparing := Sparing(policy, dir);
    phase' := Draining;
    SeenFields(s);
    SeenFields(s');
    SeenTurn(before, policy, base, dir, s, outcome, s', visited);
    visited' := TurnKeeps(before, sparing, dir, [], Seen(s), outcome, Seen(s'), visited);
    assert dir + [] == dir;
    DrainableMeans(before, policy, dir);
    if outcome == Going && s'.stack == [] {
      UpEmptied(before, policy, dir, s, s', visited);
      phase' := Emptied;
    }
  }

  lemma {:induction false} UpTurnEmptied(before: Nodes, policy: Policy, base: Path, path: Path, s: State,
                                         outcome: Outcome, s': State, visited: set<Path>)
    returns (phase': Phase)
    requires Tree(before) && EndsUp(path)
    requires UpRun(before, policy, base, path, s, visited, Emptied) && Turned(policy, base, s, outcome, s')
    ensures UpProgressed(before, policy, base, path, s, outcome, s', visited, visited, Emptied, phase')
    ensures Reduced(before, s'.nodes, Opened(base, path))
  {
    hide Tree, HasChild, Removable, Addressed, Under, Explored, Partition, Reduced, ChildOf,
         Drainable, Drained, Opened, Descended;
    var dir := Opened(base, path);
    phase' := Repeating;
    DrainedReduced(before, dir);
    if |path| > 1 {
      UpGone(before, base, path);
    } else {
      UpAgain(before, policy, dir, s, outcome, s');
    }
  }

  lemma {:induction false} UpTurnRepeating(before: Nodes, policy: Policy, base: Path, path: Path, s: State,
                                           outcome: Outcome, s': State, visited: set<Path>)
    returns (phase': Phase)
    requires Tree(before) && EndsUp(path)
    requires UpRun(before, policy, base, path, s, visited, Repeating) && Turned(policy, base, s, outcome, s')
    ensures UpProgressed(before, policy, base, path, s, outcome, s', visited, visited, Repeating, phase')
    ensures Reduced(before, s'.nodes, Opened(base, path))
  {
    hide Tree, HasChild, Removable, Addressed, UpStatus, Under, Explored, Partition, Reduced, ChildOf,
         Drainable, Drained, Opened, Descended;
    phase' := Emptied;
    DrainedReduced(before, Opened(base, path));
  }

  lemma {:induction false} DrainedReduced(nodes: Nodes, dir: Path)
    ensures Reduced(nodes, Drained(nodes, dir), dir)
  {
  }

  // -------- Runs that do not end --------

  // A run of the loop from its start.
  ghost predicate IsRun(policy: Policy, base: Path, run: seq<State>) {
    && (forall i | 0 <= i < |run| :: Tree(run[i].nodes))
    && forall i | 0 < i < |run| :: Turned(policy, base, run[i - 1], Going, run[i])
  }

  lemma {:induction false} UpRunReached(policy: Policy, base: Path, path: Path, run: seq<State>)
    returns (visited: set<Path>, phase: Phase)
    requires IsRun(policy, base, run) && run != [] && run[0] == State(run[0].nodes, [], [path]) && EndsUp(path)
    requires |path| == 1 ==> base in run[0].nodes && run[0].nodes[base] == Directory
    ensures UpRun(run[0].nodes, policy, base, path, run[|run| - 1], visited, phase)
    decreases |run|
  {
    hide Tree, Turned, UpRun, Opened;
    if |run| == 1 {
      visited, phase := {}, Starting;
      UpRunStart(run[0].nodes, policy, base, path);
    } else {
      var last := |run| - 1;
      visited, phase := UpRunReached(policy, base, path, run[..last]);
      visited, phase := UpTurn(run[0].nodes, policy, base, path, run[last - 1], Going, run[last], visited, phase);
    }
  }

  lemma {:induction false} UpRunStart(before: Nodes, policy: Policy, base: Path, path: Path)
    requires path != []
    ensures UpRun(before, policy, base, path, State(before, [], [path]), {}, Starting)
  {
  }

  // With `..` alone, and everything below that directory removable, every turn leads to another one.
  lemma {:induction false} UpNeverEnds(policy: Policy, base: Path, run: seq<State>, outcome: Outcome, next: State)
    requires IsRun(policy, base, run) && run != [] && run[0] == State(run[0].nodes, [], [[".."]])
    requires base in run[0].nodes && run[0].nodes[base] == Directory
    requires Drainable(run[0].nodes, policy, Opened(base, [".."]))
    requires Turned(policy, base, run[|run| - 1], outcome, next) && Tree(next.nodes)
    ensures outcome == Going
  {
    hide Tree, Turned, UpRun, Opened, Drainable;
    var before, last := run[0].nodes, run[|run| - 1];
    var visited, phase := UpRunReached(policy, base, [".."], run);
    var _, _ := UpTurn(before, policy, base, [".."], last, outcome, next, visited, phase);
  }

  // A `.` before the end of a path makes no difference.
  function Plain(path: Path): (plain: Path)
    ensures plain == [] <==> path == []
    ensures EndsUp(plain) <==> EndsUp(path)
  {
    if |path| <= 1 then path
    else if path[0] == "." then Plain(path[1..])
    else [path[0]] + Plain(path[1..])
  }

  // No `.` before the last name.
  predicate Undotted(path: Path) {
    forall i :: 0 <= i < |path| - 1 ==> path[i] != "."
  }

  lemma {:induction false} PlainKeeps(path: Path)
    requires Undotted(path)
    ensures Plain(path) == path
  {
    if |path| > 1 {
      assert forall i :: 0 <= i < |path| - 2 ==> path[1..][i] == path[i + 1];
      PlainKeeps(path[1..]);
    }
  }

  lemma {:induction false} PlainSkips(a: Path, b: Path)
    requires b != []
    ensures Plain(a + ["."] + b) == Plain(a + b)
  {
    var path, rest := a + ["."] + b, a + b;
    if a == [] {
      assert path[1..] == b && rest == b;
    } else {
      assert path[1..] == a[1..] + ["."] + b && rest[1..] == a[1..] + b;
      PlainSkips(a[1..], b);
    }
  }

  // A `..` before the last name.
  predicate GoesUp(path: Path) {
    exists i :: 0 <= i < |path| - 1 && path[i] == ".."
  }

  // The result of a removal, from the state before it: whether it succeeds,
  ghost predicate Succeeds(nodes: Nodes, policy: Policy, base: Path, path: Path) {
    if EndsUp(path) then
      || UpStatus(nodes, base, path) == NoEntity
      || (UpStatus(nodes, base, path) == NotEmpty && |path| > 1 && Drainable(nodes, policy, Opened(base, path)))
    else
      path == [] || Removable(nodes, policy, base + path)
  }

  // and what is left then. A directory that `..` leads to is emptied, and stays.
  ghost function Remainder(nodes: Nodes, base: Path, path: Path): Nodes {
    if path == [] || (EndsUp(path) && UpStatus(nodes, base, path) == NoEntity) then nodes
    else if EndsUp(path) then Drained(nodes, Opened(base, path))
    else Without(nodes, base + path)
  }

  lemma {:induction false} RmdirKeepsTree(nodes: Nodes, policy: Policy, dir: Path, path: Path)
    requires Tree(nodes)
    ensures RmdirStatus(nodes, policy, dir, path) == Ok ==> Tree(nodes - {dir + path})
  {
    hide Tree, Addressed, HasChild;
    if RmdirStatus(nodes, policy, dir, path) == Ok {
      RemoveLeaf(nodes, dir + path);
    }
  }

  // A path without inner dots is taken as it is.
  lemma {:induction false} UndottedResult(nodes: Nodes, policy: Policy, base: Path, path: Path)
    requires Undotted(path)
    ensures Plain(path) == path
    ensures !EndsUp(path) ==>
      && (Succeeds(nodes, policy, base, path) <==> path == [] || Removable(nodes, policy, base + path))
      && (path != [] ==> Remainder(nodes, base, path) == Without(nodes, base + path))
    ensures EndsUp(path) && |path| > 1 ==>
      var dir := (base + path)[..|base + path| - 2];
      match UpStatus(nodes, base, path)
      case NoEntity => Succeeds(nodes, policy, base, path) && Remainder(nodes, base, path) == nodes
      case NotEmpty =>
        && (Succeeds(nodes, policy, base, path) <==> Drainable(nodes, policy, dir))
        && Remainder(nodes, base, path) == Drained(nodes, dir)
      case _ => !Succeeds(nodes, policy, base, path)
  {
    hide Removable, Without, Drainable, Drained, UpStatus;
    PlainKeeps(path);
  }

  ghost predicate InLoop(before: Nodes, policy: Policy, base: Path, path: Path, s: State, visited: set<Path>,
                         phase: Phase) {
    if EndsUp(path) then UpRun(before, policy, base, path, s, visited, phase)
    else UnderRemoval(before, policy, base, path, s, visited) && (path == [] ==> s.stack == [] && s.nodes == before)
  }

  lemma {:induction false} LoopStart(before: Nodes, policy: Policy, base: Path, path: Path)
    requires Tree(before)
    ensures InLoop(before, policy, base, path, State(before, [], [path]), {}, Starting)
  {
    hide Tree, Removing;
    StepStart(before, policy, base, path);
  }

  lemma {:induction false} LoopInRange(before: Nodes, policy: Policy, base: Path, path: Path, s: State,
                                       visited: set<Path>, phase: Phase)
    requires InLoop(before, policy, base, path, s, visited, phase)
    ensures CurrentStart(s.stack) <= |s.entries| && s.entries != []
  {
    hide Removing, Sparing;
    if !EndsUp(path) {
      StartInRange(before, s.nodes, policy, base, path, s.stack, s.entries, visited);
    } else if phase == Draining {
      SeenEntry(before, Sparing(policy, Opened(base, path)), base, Opened(base, path), s, visited);
    }
  }

  lemma {:induction false} LoopTurn(before: Nodes, policy: Policy, base: Path, path: Path, s: State,
                                    outcome: Outcome, s': State, visited: set<Path>, phase: Phase)
    returns (visited': set<Path>, phase': Phase)
    requires Tree(before) && Tree(s'.nodes)
    requires path == [".."] ==>
      base in before && before[base] == Directory && !Drainable(before, policy, Opened(base, path))
    requires InLoop(before, policy, base, path, s, visited, phase) && Turned(policy, base, s, outcome, s')
    ensures Reduced(before, s'.nodes, Opened(base, path))
    ensures outcome == Going ==>
      && InLoop(before, policy, base, path, s', visited', phase')
      && (Rank(phase') < Rank(phase) || (phase' == phase && Nearer(before, s, visited, s', visited')))
    ensures outcome == Removed ==>
      s.stack == [] && Succeeds(before, policy, base, path) && s'.nodes == Remainder(before, base, path)
    ensures outcome == Erred ==> !Succeeds(before, policy, base, path)
  {
    hide Tree, Removing, Turned, UpRun, Drainable, Reduced, UpStatus, Drained, Without, Removable, Nearer;
    visited', phase' := visited, phase;
    if EndsUp(path) {
      OnlyUp(path);
      visited', phase' := UpTurn(before, policy, base, path, s, outcome, s', visited, phase);
    } else {
      visited' := TurnKeeps(before, policy, base, path, s, outcome, s', visited);
    }
  }

  lemma OnlyUp(path: Path)
    requires EndsUp(path)
    ensures |path| == 1 <==> path == [".."]
  {
  }

  class FileSystem {
    var nodes: Nodes
    const policy: Policy

    constructor (nodes: Nodes, policy: Policy)
      requires Tree(nodes)
      ensures this.nodes == nodes
      ensures this.policy == policy
    {
      this.nodes, this.policy := nodes, policy;
    }

    method Rmdir(dir: Path, path: Path) returns (status: Status)
      modifies this`nodes
      ensures status == RmdirStatus(old(nodes), policy, dir, path)
      ensures nodes == if status == Ok then old(nodes) - {dir + path} else old(nodes)
    {
      status := RmdirStatus(nodes, policy, dir, path);
      if status == Ok {
        nodes := nodes - {dir + path};
      }
    }

    method Unlink(dir: Path, path: Path) returns (status: Status)
      modifies this`nodes
      ensures status == UnlinkStatus(old(nodes), policy, dir, path)
      ensures nodes == if status == Ok then old(nodes) - {dir + path} else old(nodes)
    {
      status := UnlinkStatus(nodes, policy, dir, path);
      if status == Ok {
        nodes := nodes - {dir + path};
      }
    }

    method ReadDirectory(dir: Path) returns (listing: seq<Entry>)
      requires Tree(nodes)
      ensures Lists(nodes, dir, listing, {})
    {
      hide Lists, Named;
      listing := [Entry(".", true), Entry("..", true)];
      var rest := set q | q in nodes.Keys && ChildOf(q, dir) :: q[|dir|];
      OnlyDots(nodes, dir, rest);
      while rest != {}
        invariant Lists(nodes, dir, listing, rest)
        invariant forall name | name in rest :: dir + [name] in nodes
        decreases rest
      {
        var name :| name in rest;
        var entry := Entry(name, policy.typeKnown(dir + [name]) && nodes[dir + [name]] == Directory);
        ListOne(nodes, dir, listing, rest, entry);
        listing := listing + [entry];
        rest := rest - {name};
      }
    }

    // The entries of a directory that stay when everything but directories is unlinked.
    method ReadAndUnlink(dir: Path) returns (ok: bool, names: seq<Path>)
      requires Tree(nodes)
      modifies this`nodes
      ensures Tree(nodes) && Reduced(old(nodes), nodes, dir)
      ensures forall q | q in old(nodes) && q !in nodes :: ChildOf(q, dir) && !policy.denied(q)
      ensures ok ==> Frame(nodes, dir, names)
      ensures !ok ==> exists q :: q in old(nodes) && ChildOf(q, dir) && policy.denied(q)
    {
      hide Lists, Queue, Named, Tree, Frame, Under;
      var listing := ReadDirectory(dir);
      QueueStart(nodes, dir, listing);
      names := [];
      var unknownEntries: seq<Path> := [];
      while listing != []
        invariant nodes == old(nodes) && Queue(nodes, dir, names, unknownEntries, listing)
        decreases |listing|
      {
        var entry := listing[0];
        ghost var more := listing;
        listing := listing[1..];
        if IsDots(entry.name) {
          QueueDots(nodes, dir, names, unknownEntries, more);
          continue;
        }
        QueueName(nodes, dir, names, unknownEntries, more);
        if entry.knownDirectory {
          names := names + [[entry.name]];
        } else {
          unknownEntries := unknownEntries + [[entry.name]];
        }
      }
      while unknownEntries != []
        invariant Queue(nodes, dir, names, unknownEntries, [])
        invariant Tree(nodes) && Reduced(old(nodes), nodes, dir)
        invariant forall q | q in old(nodes) && q !in nodes :: ChildOf(q, dir) && !policy.denied(q)
        decreases |unknownEntries|
      {
        var name := unknownEntries[|unknownEntries| - 1];
        QueueUnlink(nodes, dir, names, unknownEntries);
        ghost var before := nodes;
        assert unknownEntries[..|unknownEntries| - 1] + [name] == unknownEntries;
        ChildPath(dir, name);
        TreeAddressed(nodes, dir + name);
        unknownEntries := unknownEntries[..|unknownEntries| - 1];
        assert Queue(before, dir, names, unknownEntries + [name], []);
        var status := Unlink(dir, name);
        if status == Ok || status == NoEntity {
          UnlinkedTree(before, dir + name);
          continue;
        } else if status != IsDirectory {
          return false, [];
        }
        QueueMove(nodes, dir, names, unknownEntries + [name]);
        names := names + [name];
      }
      QueueEnd(nodes, dir, names);
      return true, names;
    }

    // The body of the loop.
    method Turn(base: Path, dirStack: seq<DirAndIterator>, dirEntries: seq<Path>)
      returns (outcome: Outcome, nextStack: seq<DirAndIterator>, nextEntries: seq<Path>)
      requires Tree(nodes) && dirEntries != [] && CurrentStart(dirStack) <= |dirEntries|
      modifies this`nodes
      ensures Tree(nodes)
      ensures Turned(policy, base, State(old(nodes), dirStack, dirEntries), outcome, State(nodes, nextStack, nextEntries))
    {
      hide Tree, Reduced, Frame, ChildOf, Current, CurrentStart, EntryStatus, UpStatus, EndsUp, Opened;
      CurrentTop(base, dirStack);
      var dir := if dirStack == [] then base else dirStack[|dirStack| - 1].dir;
      var dirEntryStart := if dirStack == [] then 0 else dirStack[|dirStack| - 1].dirEntryStart;
      if dirEntryStart == |dirEntries| {
        return Going, dirStack[..|dirStack| - 1], dirEntries;
      }
      assert dirEntryStart < |dirEntries|;
      var entryPath := dirEntries[|dirEntries| - 1];
      RmdirKeepsTree(nodes, policy, dir, entryPath);
      var status := Rmdir(dir, entryPath);
      if status == Ok || status == NoEntity {
        var left := dirEntries[..|dirEntries| - 1];
        return if left == [] then Removed else Going, dirStack, left;
      }
      if status != NotEmpty {
        return Erred, dirStack, dirEntries;
      }
      var subdir := Opened(dir, entryPath);
      if policy.unreadable(subdir) {
        return Erred, dirStack, dirEntries;
      }
      var read, names := ReadAndUnlink(subdir);
      if !read {
        return Erred, dirStack, dirEntries;
      }
      return Going, dirStack + [DirAndIterator(subdir, |dirEntries|)], dirEntries + names;
    }

    // Ends for every path without a `..` before its last name, but for `..` alone when everything
    // below that directory can be removed.
    method Rmtree(base: Path, path: Path) returns (ok: bool)
      requires Tree(nodes) && !GoesUp(path)
      requires Plain(path) == [".."] ==>
        base in nodes && nodes[base] == Directory && !Drainable(nodes, policy, Opened(base, [".."]))
      modifies this`nodes
      ensures Tree(nodes) && Reduced(old(nodes), nodes, Opened(base, Plain(path)))
      ensures Undotted(path) && !EndsUp(path) ==>
        && (ok <==> path == [] || Removable(old(nodes), policy, base + path))
        && (ok && path != [] ==> nodes == Without(old(nodes), base + path))
      ensures Undotted(path) && EndsUp(path) && |path| > 1 ==>
        var dir := (base + path)[..|base + path| - 2];
        match UpStatus(old(nodes), base, path)
        case NoEntity => ok && nodes == old(nodes)
        case NotEmpty => (ok <==> Drainable(old(nodes), policy, dir)) && (ok ==> nodes == Drained(old(nodes), dir))
        case _ => !ok
      ensures ok <==> Succeeds(old(nodes), policy, base, Plain(path))
      ensures ok ==> nodes == Remainder(old(nodes), base, Plain(path))
    {
      hide Tree, Turned, InLoop, Reduced, Succeeds, Remainder, Plain, Opened, Drainable, Drained, UpStatus, Without,
           Removable, CurrentStart;
      var plain := Plain(path);
      ghost var before := nodes;
      ghost var visited, phase := {}, Starting;
      var dirStack: seq<DirAndIterator> := [];
      var dirEntries := [plain];
      LoopStart(before, policy, base, plain);
      if Undotted(path) {
        UndottedResult(before, policy, base, path);
      }
      while true
        invariant Tree(nodes)
        invariant InLoop(before, policy, base, plain, State(nodes, dirStack, dirEntries), visited, phase)
        decreases Rank(phase), nodes.Keys, before.Keys - visited, |dirStack|
      {
        ghost var s := State(nodes, dirStack, dirEntries);
        LoopInRange(before, policy, base, plain, s, visited, phase);
        var outcome;
        outcome, dirStack, dirEntries := Turn(base, dirStack, dirEntries);
        ghost var s' := State(nodes, dirStack, dirEntries);
        visited, phase := LoopTurn(before, policy, base, plain, s, outcome, s', visited, phase);
        if outcome == Removed {
          assert s.stack == [];
          return true;
        }
        if outcome == Erred {
          return false;
        }
      }
    }
  }
}
