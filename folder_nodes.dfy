/**
 * MailFolderNode: the mutable wrapper around a host folder that keeps the
 * folder tree's structure (background/background.js, class MailFolderNode),
 * its construction from an account's folder listing with an explicit work
 * stack, and its flattening with toArray.
 *
 * A node tree is related to the value it stands for, a `Tree`, by `Abs`; the
 * value-level reference construction is `Build`.
 */
module FolderNodes {
  import opened Wrappers
  import opened Folders

  /** The value a tree of MailFolderNodes stands for. */
  datatype Tree = Tree(folder: Folder, account: Account, isRoot: bool, children: seq<Tree>)

  class MailFolderNode {
    const folder: Folder
    const account: Account
    const isRoot: bool
    var children: seq<MailFolderNode>
    /** An upper bound on the height of the subtree below this node; it only
        serves to show that the abstraction `Abs` is well founded. */
    ghost const rank: nat

    constructor (folder: Folder, account: Account, isRoot: bool, ghost rank: nat)
      ensures this.folder == folder && this.account == account && this.isRoot == isRoot
      ensures this.rank == rank && children == []
    {
      this.folder := folder;
      this.account := account;
      this.isRoot := isRoot;
      this.rank := rank;
      children := [];
    }

    /** Adds a child node after the existing ones. */
    method Append(child: MailFolderNode)
      modifies this
      ensures children == old(children) + [child]
    {
      children := children + [child];
    }

    /** Flattens the folder listing below this node's folder with a work
        stack, in walk order (see WalkListsDescendants for what it holds). */
    method ToArray() returns (list: seq<Folder>)
      ensures list == RevPreorder(folder.subFolders)
    {
      var stack := folder.subFolders;
      list := [];
      while |stack| > 0
        invariant list + RevPreorder(stack) == RevPreorder(folder.subFolders)
        decreases |RevPreorder(folder.subFolders)| - |list|
      {
        var fldr := stack[|stack| - 1];
        WalkStep(list, stack);
        stack := stack[..|stack| - 1];
        list := list + [fldr];
        if |fldr.subFolders| != 0 {
          stack := stack + fldr.subFolders;
        } else {
          assert stack + fldr.subFolders == stack;
        }
      }
    }

    /** Builds the node tree of an account: a root node whose folder is the
        account's listing, and below it one node per listed folder, popping
        parents from a work stack and appending their children in order. */
    static method FromAccount(account: Account) returns (root: MailFolderNode, ghost S: set<MailFolderNode>)
      ensures fresh(S) && root in S && Closed(S)
      ensures Abs(root, S) == Build(RootFolder(account), account, true)
    {
      root := new MailFolderNode(RootFolder(account), account, true, Size(RootFolder(account)));
      ghost var C: map<MailFolderNode, seq<MailFolderNode>> := map[root := []];
      var stack := [root];
      while |stack| != 0
        invariant fresh(C.Keys) && BuildState(C, stack, root, account)
        invariant forall n :: n in C ==> n.children == C[n]
        decreases |Preorder(FoldersOf(stack))|
      {
        C, stack := ExpandTop(C, stack, root, account);
      }
      S := C.Keys;
      BuildFinished(C, root, account);
    }
  }

  /** One round of toArray's loop: emitting the top of the stack and pushing
      its subfolders leaves the rest of the walk unchanged. */
  lemma WalkStep(list: seq<Folder>, stack: seq<Folder>)
    requires |stack| > 0
    ensures list + RevPreorder(stack) ==
      (list + [stack[|stack| - 1]]) + RevPreorder(stack[..|stack| - 1] + stack[|stack| - 1].subFolders)
  {
    var top := stack[|stack| - 1];
    var init := stack[..|stack| - 1];
    var a, b := RevPreorder(top.subFolders), RevPreorder(init);
    assert RevPreorder(stack) == [top] + a + b;
    RevPreorderAppend(init, top.subFolders);
    assert RevPreorder(init + top.subFolders) == a + b;
    Assoc([top], a, b);
    Assoc(list, [top], a + b);
  }

  lemma Assoc<T>(x: seq<T>, y: seq<T>, z: seq<T>)
    ensures x + (y + z) == (x + y) + z
  {
  }

  lemma SplitLast<T>(s: seq<T>)
    requires |s| > 0
    ensures s == s[..|s| - 1] + [s[|s| - 1]]
  {
  }

  /** One round of fromAccount's loop: pops the top node of the work stack,
      gives it its children and pushes them. */
  method ExpandTop(ghost C: map<MailFolderNode, seq<MailFolderNode>>, stack: seq<MailFolderNode>,
                   ghost root: MailFolderNode, account: Account)
    returns (ghost C': map<MailFolderNode, seq<MailFolderNode>>, stack': seq<MailFolderNode>)
    requires |stack| != 0 && BuildState(C, stack, root, account)
    requires forall n :: n in C ==> n.children == C[n]
    modifies stack[|stack| - 1]
    ensures fresh(C'.Keys - C.Keys) && BuildState(C', stack', root, account)
    ensures forall n :: n in C' ==> n.children == C'[n]
    ensures |Preorder(FoldersOf(stack'))| < |Preorder(FoldersOf(stack))|
  {
    var parent := stack[|stack| - 1];
    var rest := stack[..|stack| - 1];
    assert stack == rest + [parent];
    assert parent in C by {
      assert stack[|stack| - 1] == parent;
    }
    var kids := AddChildren(parent, account);
    LinkStep(C, parent, kids);
    BuildStep(C, rest, parent, kids, root, account);
    StackShrinks(rest, parent, kids);
    KeysStep(C, parent, kids);
    C' := C[parent := kids] + NewLeaves(kids);
    stack' := rest + kids;
  }

  /** The body of fromAccount's loop over a popped parent's subfolders: one
      new node per subfolder, appended to the parent in listing order; the
      new nodes are what the loop pushes on the work stack. */
  method AddChildren(parent: MailFolderNode, account: Account) returns (kids: seq<MailFolderNode>)
    requires parent.children == []
    modifies parent
    ensures parent.children == kids && |kids| == |parent.folder.subFolders|
    ensures forall k :: 0 <= k < |kids| ==> fresh(kids[k]) && kids[k].children == []
    ensures forall k :: 0 <= k < |kids| ==>
      kids[k].folder == parent.folder.subFolders[k] && kids[k].account == account &&
      !kids[k].isRoot && kids[k].rank == Size(kids[k].folder) && kids[k].rank < Size(parent.folder)
    ensures forall i, k :: 0 <= i < k < |kids| ==> kids[i] != kids[k]
  {
    var subs := parent.folder.subFolders;
    kids := [];
    var j := 0;
    while j < |subs|
      invariant 0 <= j <= |subs| && |kids| == j && parent.children == kids
      invariant forall k :: 0 <= k < j ==> fresh(kids[k]) && kids[k].children == []
      invariant forall k :: 0 <= k < j ==>
        kids[k].folder == subs[k] && kids[k].account == account &&
        !kids[k].isRoot && kids[k].rank == Size(kids[k].folder) && kids[k].rank < Size(parent.folder)
      invariant forall i, k :: 0 <= i < k < j ==> kids[i] != kids[k]
    {
      SubFolderSmaller(parent.folder, j);
      var child := new MailFolderNode(subs[j], account, false, Size(subs[j]));
      parent.Append(child);
      kids := kids + [child];
      j := j + 1;
    }
  }

  /** The folders of a sequence of nodes. */
  function FoldersOf(nodes: seq<MailFolderNode>): (r: seq<Folder>)
    ensures |r| == |nodes| && forall i :: 0 <= i < |nodes| ==> r[i] == nodes[i].folder
  {
    seq(|nodes|, i requires 0 <= i < |nodes| => nodes[i].folder)
  }

  /** What fromAccount knows of the nodes made so far, given a snapshot `C`
      of each node's children: the nodes are well formed, and the work stack
      holds, each once, exactly the nodes not yet expanded. */
  ghost predicate BuildState(C: map<MailFolderNode, seq<MailFolderNode>>, stack: seq<MailFolderNode>,
                             root: MailFolderNode, account: Account)
  {
    NodesOk(C, root, account) && StackOk(C, stack)
  }

  /** Every node belongs to the account and only `root` is flagged root;
      children are known nodes of lower rank. */
  ghost predicate NodesOk(C: map<MailFolderNode, seq<MailFolderNode>>, root: MailFolderNode, account: Account)
  {
    && root in C
    && (forall n :: n in C ==> n.account == account && n.isRoot == (n == root) && n.rank == Size(n.folder))
    && (forall n, i :: n in C && 0 <= i < |C[n]| ==> C[n][i] in C && C[n][i].rank < n.rank && !C[n][i].isRoot)
  }

  /** The nodes on the work stack (each once) have no children yet, and every
      other node has one child per subfolder, in listing order. */
  ghost predicate StackOk(C: map<MailFolderNode, seq<MailFolderNode>>, stack: seq<MailFolderNode>)
  {
    && (forall i :: 0 <= i < |stack| ==> stack[i] in C && C[stack[i]] == [])
    && (forall i, j :: 0 <= i < j < |stack| ==> stack[i] != stack[j])
    && (forall n :: n in C && n !in stack ==> Mirrored(C, n))
  }

  /** In the snapshot, `n` has one child per subfolder, in listing order. */
  ghost predicate Mirrored(C: map<MailFolderNode, seq<MailFolderNode>>, n: MailFolderNode)
    requires n in C
  {
    |C[n]| == |n.folder.subFolders| && forall i :: 0 <= i < |C[n]| ==> C[n][i].folder == n.folder.subFolders[i]
  }

  /** Fresh nodes without children. */
  ghost function NewLeaves(kids: seq<MailFolderNode>): map<MailFolderNode, seq<MailFolderNode>>
  {
    map k | k in kids :: []
  }

  /** Expanding `parent` adds exactly its new children to the snapshot. */
  lemma KeysStep(C: map<MailFolderNode, seq<MailFolderNode>>, parent: MailFolderNode, kids: seq<MailFolderNode>)
    requires parent in C
    ensures (C[parent := kids] + NewLeaves(kids)).Keys == C.Keys + set k | k in kids
  {
  }

  /** Expanding the top of the stack keeps BuildState. */
  lemma BuildStep(C: map<MailFolderNode, seq<MailFolderNode>>, rest: seq<MailFolderNode>, parent: MailFolderNode,
                  kids: seq<MailFolderNode>, root: MailFolderNode, account: Account)
    requires BuildState(C, rest + [parent], root, account)
    requires |kids| == |parent.folder.subFolders|
    requires forall k :: 0 <= k < |kids| ==>
      kids[k] !in C && kids[k].folder == parent.folder.subFolders[k] && kids[k].account == account &&
      !kids[k].isRoot && kids[k].rank == Size(kids[k].folder) && kids[k].rank < Size(parent.folder)
    requires forall i, k :: 0 <= i < k < |kids| ==> kids[i] != kids[k]
    ensures BuildState(C[parent := kids] + NewLeaves(kids), rest + kids, root, account)
  {
    var before := rest + [parent];
    assert before[|rest|] == parent;
    assert parent in C && C[parent] == [];
    forall i | 0 <= i < |rest| ensures rest[i] != parent && rest[i] in C && C[rest[i]] == [] {
      assert before[i] == rest[i];
    }
    NodesStep(C, parent, kids, root, account);
    StackStep(C, rest, parent, kids);
  }

  lemma NodesStep(C: map<MailFolderNode, seq<MailFolderNode>>, parent: MailFolderNode,
                  kids: seq<MailFolderNode>, root: MailFolderNode, account: Account)
    requires NodesOk(C, root, account) && parent in C
    requires forall k :: 0 <= k < |kids| ==>
      kids[k] !in C && kids[k].account == account &&
      !kids[k].isRoot && kids[k].rank == Size(kids[k].folder) && kids[k].rank < Size(parent.folder)
    ensures NodesOk(C[parent := kids] + NewLeaves(kids), root, account)
  {
    var C' := C[parent := kids] + NewLeaves(kids);
    forall n | n in C' ensures n in C || n in kids {
    }
  }

  lemma StackStep(C: map<MailFolderNode, seq<MailFolderNode>>, rest: seq<MailFolderNode>, parent: MailFolderNode,
                  kids: seq<MailFolderNode>)
    requires StackOk(C, rest + [parent]) && parent in C
    requires forall i :: 0 <= i < |rest| ==> rest[i] != parent && rest[i] in C && C[rest[i]] == []
    requires |kids| == |parent.folder.subFolders|
    requires forall k :: 0 <= k < |kids| ==> kids[k] !in C && kids[k].folder == parent.folder.subFolders[k]
    requires forall i, k :: 0 <= i < k < |kids| ==> kids[i] != kids[k]
    ensures StackOk(C[parent := kids] + NewLeaves(kids), rest + kids)
  {
    var C': map<MailFolderNode, seq<MailFolderNode>> := C[parent := kids] + NewLeaves(kids);
    var before := rest + [parent];
    var stack := rest + kids;
    forall i | 0 <= i < |stack| ensures stack[i] in C' && C'[stack[i]] == [] {
      if i >= |rest| {
        assert stack[i] == kids[i - |rest|];
      }
    }
    forall i, j | 0 <= i < j < |stack| ensures stack[i] != stack[j] {
      if j < |rest| {
        assert before[i] == rest[i] && before[j] == rest[j];
      }
    }
    forall n | n in C' && n !in stack ensures Mirrored(C', n) {
      if n != parent {
        assert n in C;
        assert n !in before;
      }
    }
  }

  /** The snapshot after expanding `parent` still describes the heap. */
  lemma LinkStep(C: map<MailFolderNode, seq<MailFolderNode>>, parent: MailFolderNode, kids: seq<MailFolderNode>)
    requires parent in C && forall n :: n in C && n != parent ==> n.children == C[n]
    requires parent.children == kids && forall k :: 0 <= k < |kids| ==> kids[k].children == []
    ensures forall n :: n in C[parent := kids] + NewLeaves(kids) ==> n.children == (C[parent := kids] + NewLeaves(kids))[n]
  {
  }

  /** Replacing the top of the stack by its children shrinks what is left to build. */
  lemma StackShrinks(rest: seq<MailFolderNode>, parent: MailFolderNode, kids: seq<MailFolderNode>)
    requires |kids| == |parent.folder.subFolders|
    requires forall k :: 0 <= k < |kids| ==> kids[k].folder == parent.folder.subFolders[k]
    ensures |Preorder(FoldersOf(rest + kids))| < |Preorder(FoldersOf(rest + [parent]))|
  {
    assert FoldersOf(kids) == parent.folder.subFolders;
    assert FoldersOf(rest + [parent]) == FoldersOf(rest) + [parent.folder];
    assert FoldersOf(rest + kids) == FoldersOf(rest) + parent.folder.subFolders;
    PreorderAppend(FoldersOf(rest), [parent.folder]);
    PreorderAppend(FoldersOf(rest), parent.folder.subFolders);
    assert [parent.folder][1..] == [];
  }

  /** Once the stack is empty, the snapshot is the whole tree and it is the built one. */
  lemma BuildFinished(C: map<MailFolderNode, seq<MailFolderNode>>, root: MailFolderNode, account: Account)
    requires BuildState(C, [], root, account) && root.folder == RootFolder(account)
    requires forall n :: n in C ==> n.children == C[n]
    ensures Closed(C.Keys)
    ensures Abs(root, C.Keys) == Build(RootFolder(account), account, true)
  {
    AbsIsBuild(root, C.Keys, account);
  }

  /** A node whose children stand one-to-one, in order, for its folder's subfolders. */
  ghost predicate Expanded(n: MailFolderNode)
    reads n
  {
    |n.children| == |n.folder.subFolders| &&
    forall i :: 0 <= i < |n.children| ==> n.children[i].folder == n.folder.subFolders[i]
  }

  /** A set of nodes that holds the children of its members, each of lower rank. */
  ghost predicate Closed(S: set<MailFolderNode>)
    reads S
  {
    forall n, i :: n in S && 0 <= i < |n.children| ==> n.children[i] in S && n.children[i].rank < n.rank
  }

  /** The tree value that the nodes reachable from `n` currently stand for. */
  ghost function Abs(n: MailFolderNode, S: set<MailFolderNode>): Tree
    reads S
    requires n in S && Closed(S)
    decreases n.rank
  {
    Tree(n.folder, n.account, n.isRoot,
         seq(|n.children|, i requires 0 <= i < |n.children| && n in S && Closed(S) reads S => Abs(n.children[i], S)))
  }

  /** The tree that mirrors a folder listing: one node per folder, children in
      listing order, only the top flagged as root. */
  function Build(f: Folder, account: Account, isRoot: bool): Tree
  {
    Tree(f, account, isRoot,
         seq(|f.subFolders|, i requires 0 <= i < |f.subFolders| => Build(f.subFolders[i], account, false)))
  }

  /** No node strictly below the top is flagged as root. */
  predicate NoRootBelow(t: Tree)
  {
    forall i :: 0 <= i < |t.children| ==> !t.children[i].isRoot && NoRootBelow(t.children[i])
  }

  /** Every node's children stand one-to-one, in order, for its folder's
      subfolders, and every node belongs to the same account. */
  predicate Mirrors(t: Tree)
  {
    |t.children| == |t.folder.subFolders| &&
    forall i :: 0 <= i < |t.children| ==>
      t.children[i].folder == t.folder.subFolders[i] && t.children[i].account == t.account && Mirrors(t.children[i])
  }

  lemma AbsIsBuild(n: MailFolderNode, S: set<MailFolderNode>, account: Account)
    requires n in S && Closed(S)
    requires forall m :: m in S ==> Expanded(m) && m.account == account
    requires forall m, i :: m in S && 0 <= i < |m.children| ==> !m.children[i].isRoot
    ensures Abs(n, S) == Build(n.folder, account, n.isRoot)
    decreases n.rank
  {
    forall i | 0 <= i < |n.children|
      ensures Abs(n.children[i], S) == Build(n.folder.subFolders[i], account, false)
    {
      AbsIsBuild(n.children[i], S, account);
    }
  }

  /** A built tree mirrors its listing and only its top may be a root. */
  lemma {:induction false} BuildMirrors(f: Folder, account: Account, isRoot: bool)
    ensures Mirrors(Build(f, account, isRoot)) && NoRootBelow(Build(f, account, isRoot))
    ensures Build(f, account, isRoot).isRoot == isRoot
  {
    forall i | 0 <= i < |f.subFolders|
      ensures Mirrors(Build(f.subFolders[i], account, false)) && NoRootBelow(Build(f.subFolders[i], account, false))
    {
      BuildMirrors(f.subFolders[i], account, false);
    }
  }

  /** Conversely, a tree that mirrors its folder's listing, with no root below
      its top, is the built tree: the construction is the only such tree. */
  lemma {:induction false} MirrorsIsBuild(t: Tree)
    requires Mirrors(t) && NoRootBelow(t)
    ensures t == Build(t.folder, t.account, t.isRoot)
  {
    forall i | 0 <= i < |t.children|
      ensures t.children[i] == Build(t.folder.subFolders[i], t.account, false)
    {
      MirrorsIsBuild(t.children[i]);
    }
  }

  /** A ghost snapshot `T` maps each node in its domain to the tree it
      currently stands for: same folder, account and root flag, and children
      that are in the domain and stand for the tree's children, in order. */
  ghost predicate Represents(T: map<MailFolderNode, Tree>)
    reads T.Keys
  {
    forall n {:trigger T[n]} :: n in T ==> NodeOk(T, n)
  }

  ghost predicate NodeOk(T: map<MailFolderNode, Tree>, n: MailFolderNode)
    reads n
    requires n in T
  {
    T[n].folder == n.folder && T[n].account == n.account && T[n].isRoot == n.isRoot &&
    |T[n].children| == |n.children| &&
    forall i :: 0 <= i < |n.children| ==> n.children[i] in T && T[n.children[i]] == T[n].children[i]
  }

  /** The snapshot of a closed set of nodes. */
  ghost function Snapshot(S: set<MailFolderNode>): (T: map<MailFolderNode, Tree>)
    reads S
    requires Closed(S)
    ensures T.Keys == S
  {
    map n | n in S :: Abs(n, S)
  }

  lemma SnapshotRepresents(S: set<MailFolderNode>)
    requires Closed(S)
    ensures Represents(Snapshot(S))
  {
    var T := Snapshot(S);
    forall n | n in T ensures NodeOk(T, n) {
      forall i | 0 <= i < |n.children| ensures T[n.children[i]] == T[n].children[i] {
        assert T[n].children[i] == Abs(n.children[i], S);
      }
    }
  }

  /** A snapshot that represents a closed set of nodes agrees with Abs on it:
      what a node stands for does not depend on how it is recorded. */
  lemma {:induction false} RepresentsIsAbs(T: map<MailFolderNode, Tree>, S: set<MailFolderNode>, n: MailFolderNode)
    requires Closed(S) && Represents(T) && n in S && S <= T.Keys
    ensures T[n] == Abs(n, S)
    decreases n.rank
  {
    assert NodeOk(T, n);
    forall i | 0 <= i < |n.children| ensures T[n].children[i] == Abs(n, S).children[i] {
      RepresentsIsAbs(T, S, n.children[i]);
    }
  }

  /** The tree a possibly missing node stands for in the snapshot `T`. */
  ghost function OptT(d: MailFolderNode?, T: map<MailFolderNode, Tree>): Option<Tree>
    requires d != null ==> d in T
  {
    if d == null then None else Some(T[d])
  }

  /** The number of nodes in a tree. */
  function TreeSize(t: Tree): nat
    decreases t, |t.children| + 1
  {
    1 + TreeSizeRev(t, |t.children|)
  }

  function TreeSizeRev(t: Tree, n: nat): nat
    requires n <= |t.children|
    decreases t, n
  {
    if n == 0 then 0 else TreeSize(t.children[n - 1]) + TreeSizeRev(t, n - 1)
  }

  lemma ChildSmaller(t: Tree, i: nat)
    requires i < |t.children|
    ensures TreeSize(t.children[i]) < TreeSize(t)
  {
    RevCovers(t, |t.children|, i);
  }

  lemma {:induction false} RevCovers(t: Tree, n: nat, i: nat)
    requires i < n <= |t.children|
    ensures TreeSize(t.children[i]) <= TreeSizeRev(t, n)
  {
    if i < n - 1 {
      RevCovers(t, n - 1, i);
    }
  }
}
