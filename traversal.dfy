/** The directory walk of searchDir in ff/findfile.go: a depth-first search
    with an explicit stack over an abstract tree of directory entries. */
module Traversal {
  import opened Wrappers
  import opened Matching

  /** A directory entry as ReadDir lists it, with what the walk and the
      visit ask of the file system already answered. */
  datatype Entry = Entry(
    name: string,
    isDir: bool,
    isLink: bool,                // a symbolic link, or Lstat fails on its path
    isOutputFile: bool,          // os.SameFile with the output file
    readable: bool,              // ReadDir succeeds on it
    lines: Option<seq<string>>,  // the lines of a file; None when it cannot be opened
    children: seq<Entry>)        // what ReadDir lists, in listing order

  /** fileOrDirWithDepth: an entry with its depth below the start and its path. */
  datatype Node = Node(entry: Entry, depth: int, path: string)

  /** The options the walk reads; filepath.Match and filepath.Join are given. */
  datatype WalkOptions = WalkOptions(
    maxLevels: int, filters: NameFilters,
    globMatch: (string, string) -> bool, join: (string, string) -> string)

  // =====================================================================
  // The specification of the walk

  /** The number of entries in a tree, as a termination measure. */
  function Size(e: Entry): nat
    decreases e
  {
    1 + SizeAll(e.children)
  }

  function SizeAll(cs: seq<Entry>): nat
    decreases cs
  {
    if cs == [] then 0 else Size(cs[0]) + SizeAll(cs[1..])
  }

  function NodesSize(ns: seq<Node>): nat
  {
    if ns == [] then 0 else Size(ns[0].entry) + NodesSize(ns[1..])
  }

  lemma {:induction false} NodesSizeAppend(a: seq<Node>, b: seq<Node>)
    ensures NodesSize(a + b) == NodesSize(a) + NodesSize(b)
  {
    if a != [] {
      assert (a + b)[1..] == a[1..] + b;
      NodesSizeAppend(a[1..], b);
    } else {
      assert a + b == b;
    }
  }

  /** A listed child is pushed unless it is a link, the output file (files
      only), or rejected by the dir or file name filters. */
  predicate Pushable(c: Entry, w: WalkOptions)
  {
    !c.isLink &&
    (if c.isDir then ShouldIncludeDirByNameFilters(w.filters, c.name, w.globMatch)
     else !c.isOutputFile && ShouldIncludeFileByNameFilters(w.filters, c.name, w.globMatch))
  }

  /** The nodes pushed for the listed entries `cs` of `n`, in listing order. */
  function Kids(n: Node, cs: seq<Entry>, w: WalkOptions): seq<Node>
  {
    if cs == [] then []
    else
      (if Pushable(cs[0], w) then [Node(cs[0], n.depth + 1, w.join(n.path, cs[0].name))] else [])
      + Kids(n, cs[1..], w)
  }

  /** Every pushed child passed the push test and sits one level deeper. */
  lemma {:induction false} KidsAdmitted(n: Node, cs: seq<Entry>, w: WalkOptions)
    ensures forall k :: 0 <= k < |Kids(n, cs, w)| ==>
              Kids(n, cs, w)[k].depth == n.depth + 1 && Pushable(Kids(n, cs, w)[k].entry, w)
  {
    if cs != [] {
      KidsAdmitted(n, cs[1..], w);
    }
  }

  lemma {:induction false} KidsSize(n: Node, cs: seq<Entry>, w: WalkOptions)
    ensures NodesSize(Kids(n, cs, w)) <= SizeAll(cs)
  {
    if cs != [] {
      KidsSize(n, cs[1..], w);
      var head := if Pushable(cs[0], w) then [Node(cs[0], n.depth + 1, w.join(n.path, cs[0].name))] else [];
      NodesSizeAppend(head, Kids(n, cs[1..], w));
    }
  }

  /** A node is expanded when it is above the depth limit and is a
      directory that can be listed. */
  predicate Expands(n: Node, w: WalkOptions)
  {
    !(w.maxLevels >= 0 && n.depth >= w.maxLevels) && n.entry.isDir && n.entry.readable
  }

  function Expand(n: Node, w: WalkOptions): (r: seq<Node>)
    ensures NodesSize(r) < Size(n.entry)
  {
    KidsSize(n, n.entry.children, w);
    if Expands(n, w) then Kids(n, n.entry.children, w) else []
  }

  /** The nodes visited for a node and everything below it, in pre-order:
      the node itself (unless it is the start, at depth -1), then the walk
      of its admitted children in listing order. */
  function Tree(n: Node, w: WalkOptions): seq<Node>
    decreases Size(n.entry), 0
  {
    (if n.depth >= 0 then [n] else []) + Forest(Expand(n, w), w)
  }

  /** The walk of a sequence of nodes, one whole subtree after another. */
  function Forest(ns: seq<Node>, w: WalkOptions): seq<Node>
    decreases NodesSize(ns), 1
  {
    if ns == [] then [] else Tree(ns[0], w) + Forest(ns[1..], w)
  }

  /** The walk of a forest is the walk of each part in turn. */
  lemma {:induction false} ForestAppend(a: seq<Node>, b: seq<Node>, w: WalkOptions)
    ensures Forest(a + b, w) == Forest(a, w) + Forest(b, w)
  {
    if a == [] {
      assert a + b == b;
    } else {
      assert (a + b)[0] == a[0] && (a + b)[1..] == a[1..] + b;
      assert Forest(a + b, w) == Tree(a[0], w) + Forest(a[1..] + b, w);
      ForestAppend(a[1..], b, w);
      ConcatAssoc(Tree(a[0], w), Forest(a[1..], w), Forest(b, w));
    }
  }

  /** With a depth limit, every visited node lies at depth 0 … maxLevels. */
  predicate DepthOk(x: Node, w: WalkOptions)
  {
    0 <= x.depth && (w.maxLevels >= 0 ==> x.depth <= w.maxLevels)
  }

  lemma {:induction false} TreeDepths(n: Node, w: WalkOptions)
    requires -1 <= n.depth && (w.maxLevels >= 0 ==> n.depth <= w.maxLevels)
    ensures forall x :: x in Tree(n, w) ==> DepthOk(x, w)
    decreases Size(n.entry), 0
  {
    KidsAdmitted(n, n.entry.children, w);
    ForestDepths(Expand(n, w), w);
  }

  lemma {:induction false} ForestDepths(ns: seq<Node>, w: WalkOptions)
    requires forall k :: 0 <= k < |ns| ==> -1 <= ns[k].depth && (w.maxLevels >= 0 ==> ns[k].depth <= w.maxLevels)
    ensures forall x :: x in Forest(ns, w) ==> DepthOk(x, w)
    decreases NodesSize(ns), 1
  {
    if ns != [] {
      TreeDepths(ns[0], w);
      ForestDepths(ns[1..], w);
    }
  }

  /** Every visited node passed the push test: no links, no output file,
      and the name filters admit it. */
  lemma {:induction false} TreePushable(n: Node, w: WalkOptions)
    requires n.depth >= 0 ==> Pushable(n.entry, w)
    ensures forall x :: x in Tree(n, w) ==> Pushable(x.entry, w)
    decreases Size(n.entry), 0
  {
    KidsAdmitted(n, n.entry.children, w);
    ForestPushable(Expand(n, w), w);
  }

  lemma {:induction false} ForestPushable(ns: seq<Node>, w: WalkOptions)
    requires forall k :: 0 <= k < |ns| ==> Pushable(ns[k].entry, w)
    ensures forall x :: x in Forest(ns, w) ==> Pushable(x.entry, w)
    decreases NodesSize(ns), 1
  {
    if ns != [] {
      TreePushable(ns[0], w);
      ForestPushable(ns[1..], w);
    }
  }

  lemma ConcatAssoc(a: seq<Node>, b: seq<Node>, c: seq<Node>)
    ensures (a + b) + c == a + (b + c)
  {
  }

  /** The list as a stack: its back is the top, so the walk takes the
      nodes of the reversed list in order. */
  function Reverse(s: seq<Node>): (r: seq<Node>)
    ensures |r| == |s|
  {
    if s == [] then [] else [s[|s| - 1]] + Reverse(s[..|s| - 1])
  }

  // =====================================================================
  // searchDir

  /** searchDir: the nodes handed to visitFileOrDir, in order. A start
      that cannot be stat'ed ends the program. */
  method SearchDir(start: Option<Entry>, dir: string, w: WalkOptions) returns (r: Result<seq<Node>>)
    ensures start.None? ==> r == Fail("Cannot read starting dir \"" + dir + "\"")
    ensures start.Some? ==> r == Ok(Tree(Node(start.value, -1, dir), w))
  {
    if start.None? {
      return Fail("Cannot read starting dir \"" + dir + "\"");
    }
    var first := Node(start.value, -1, dir);
    var stack := [first];
    var visited := [];
    assert Reverse(stack) == [first];
    assert Forest([first], w) == Tree(first, w) + Forest([], w);
    while |stack| > 0
      invariant visited + Forest(Reverse(stack), w) == Tree(first, w)
      decreases NodesSize(Reverse(stack))
    {
      var node := stack[|stack| - 1];
      var rest := stack[..|stack| - 1];
      PopStep(stack, node, rest, w);
      ghost var todo := Expand(node, w) + Reverse(rest);
      ghost var v0 := visited;
      ghost var self := if node.depth >= 0 then [node] else [];
      stack := rest;
      if node.depth >= 0 {
        visited := visited + [node];
      }
      // The depth limit, then files, then directories that cannot be listed.
      if !(w.maxLevels >= 0 && node.depth >= w.maxLevels) && node.entry.isDir && node.entry.readable {
        stack := PushChildren(stack, node, w);
      } else {
        assert Expand(node, w) + Reverse(rest) == Reverse(rest);
      }
      assert Reverse(stack) == todo;
      assert visited == v0 + self;
      ConcatAssoc(v0, self, Forest(todo, w));
    }
    assert Forest(Reverse(stack), w) == [];
    assert visited + [] == visited;
    r := Ok(visited);
  }

  /** Taking the top of the stack: it is visited, and its children take its
      place. */
  lemma PopStep(stack: seq<Node>, node: Node, rest: seq<Node>, w: WalkOptions)
    requires |stack| > 0 && node == stack[|stack| - 1] && rest == stack[..|stack| - 1]
    ensures Forest(Reverse(stack), w) == (if node.depth >= 0 then [node] else []) + Forest(Expand(node, w) + Reverse(rest), w)
    ensures NodesSize(Expand(node, w) + Reverse(rest)) < NodesSize(Reverse(stack))
  {
    var e, r := Expand(node, w), Reverse(rest);
    assert Reverse(stack) == [node] + r;
    assert ([node] + r)[0] == node && ([node] + r)[1..] == r;
    ForestAppend(e, r, w);
    ConcatAssoc(if node.depth >= 0 then [node] else [], Forest(e, w), Forest(r, w));
    NodesSizeAppend(e, r);
  }

  lemma ReverseSnoc(s: seq<Node>, x: Node)
    ensures Reverse(s + [x]) == [x] + Reverse(s)
  {
    assert (s + [x])[..|s|] == s;
  }

  lemma KidsStep(n: Node, cs: seq<Entry>, i: nat, w: WalkOptions)
    requires i < |cs|
    ensures Kids(n, cs[i..], w) ==
      (if Pushable(cs[i], w) then [Node(cs[i], n.depth + 1, w.join(n.path, cs[i].name))] else []) + Kids(n, cs[i + 1..], w)
  {
    assert cs[i..][0] == cs[i] && cs[i..][1..] == cs[i + 1..];
  }

  /** The inner loop of searchDir: the admitted children, last listed
      first, so that the first listed is on top. */
  method PushChildren(stack: seq<Node>, node: Node, w: WalkOptions) returns (r: seq<Node>)
    ensures Reverse(r) == Kids(node, node.entry.children, w) + Reverse(stack)
  {
    var cs := node.entry.children;
    var newDepth := node.depth + 1;
    r := stack;
    var i := |cs| - 1;
    while i >= 0
      invariant -1 <= i < |cs|
      invariant Reverse(r) == Kids(node, cs[i + 1..], w) + Reverse(stack)
    {
      r := PushChild(r, node, i, stack, w);
      i := i - 1;
    }
    assert cs[0..] == cs;
  }

  /** One step of the inner loop: the child at index i is pushed when it
      passes the push test. */
  method PushChild(r: seq<Node>, node: Node, i: int, ghost stack: seq<Node>, w: WalkOptions) returns (r': seq<Node>)
    requires 0 <= i < |node.entry.children|
    requires Reverse(r) == Kids(node, node.entry.children[i + 1..], w) + Reverse(stack)
    ensures Reverse(r') == Kids(node, node.entry.children[i..], w) + Reverse(stack)
  {
    var c := node.entry.children[i];
    KidsStep(node, node.entry.children, i, w);
    if Pushable(c, w) {
      var child := Node(c, node.depth + 1, w.join(node.path, c.name));
      ReverseSnoc(r, child);
      r' := r + [child];
    } else {
      r' := r;
    }
  }

  /** What searchDir visits from a start directory: never the start
      itself, only nodes within the depth limit, and only entries that
      passed the push test. */
  lemma SearchDirVisits(start: Entry, dir: string, w: WalkOptions)
    ensures Tree(Node(start, -1, dir), w) == Forest(Expand(Node(start, -1, dir), w), w)
    ensures forall x :: x in Tree(Node(start, -1, dir), w) ==> DepthOk(x, w) && Pushable(x.entry, w)
    ensures Node(start, -1, dir) !in Tree(Node(start, -1, dir), w)
  {
    var first := Node(start, -1, dir);
    assert [] + Forest(Expand(first, w), w) == Forest(Expand(first, w), w);
    TreeDepths(first, w);
    TreePushable(first, w);
  }
}
