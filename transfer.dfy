/**
 * MailFolderNode.transfer and MailFolderNode.merge (background/background.js):
 * the source tree is walked against the destination tree with a stack of
 * (source, destination, destination parent) frames; a folder without a
 * counterpart is copied whole into the destination parent, a folder with one
 * has its messages merged into it, page by page, and its children are visited.
 *
 * The host is an oracle fixed in advance (`Host`), and what transfer asks of it
 * is recorded as a trace of operations (`Op`). `TransferOf` is the value-level
 * reference for the walk; `Transfer` is proved against it, and the lemmas
 * relate it to the conflict report of Conflicts.Compare.
 */
module Transfer {
  import opened Wrappers
  import opened Folders
  import opened FolderNodes
  import opened Conflicts

  type MessageId = int

  /** Where messenger.folders.copy puts a folder: the account's folder root
      when the destination parent is a root node, the parent's folder otherwise. */
  datatype Place = IntoAccount(account: Account) | IntoFolder(folder: Folder)

  /** What transfer asks the host to change: a folder copy or a message
      copy. The reads (folder info, message listings) are not recorded. */
  datatype Op =
    | CopyFolder(folder: Folder, into: Place)
    | CopyMessages(ids: seq<MessageId>, target: Folder)

  /** One page of a message listing: the ids of its messages and, when more
      pages follow, the id of the listing to continue. */
  datatype Page = Page(id: Option<string>, messages: seq<MessageId>)

  /** The host's answers: the folder messenger.folders.copy creates for a
      folder and a place, the message total getFolderInfo reports for a
      folder, and the pages messages.list and continueList hand out for a
      folder, in order. */
  datatype Host = Host(copyFolder: (Folder, Place) -> Folder, total: Folder -> nat, pages: Folder -> seq<Page>)

  /** A listing that ends: some page has no continuation id. */
  predicate Ends(pages: seq<Page>)
  {
    exists i :: 0 <= i < |pages| && !Truthy(pages[i].id)
  }

  /** Every listing the host hands out ends. */
  ghost predicate Finite(h: Host)
  {
    forall f :: Ends(h.pages(f))
  }

  /** The index of the first page without a continuation id: the last page
      merge reads. */
  function LastRead(pages: seq<Page>): (k: nat)
    requires Ends(pages)
    ensures k < |pages| && !Truthy(pages[k].id)
    ensures forall i :: 0 <= i < k ==> Truthy(pages[i].id)
  {
    if !Truthy(pages[0].id) then 0
    else
      assert Ends(pages[1..]) by {
        var i :| 0 <= i < |pages| && !Truthy(pages[i].id);
        assert pages[1..][i - 1] == pages[i];
      }
      LastRead(pages[1..]) + 1
  }

  /** The pages merge reads: up to and including the first one without a
      continuation id. */
  function Fetched(pages: seq<Page>): seq<Page>
    requires Ends(pages)
  {
    pages[..LastRead(pages) + 1]
  }

  /** The number of messages on a sequence of pages. */
  function MessageCount(pages: seq<Page>): nat
  {
    if pages == [] then 0 else MessageCount(pages[..|pages| - 1]) + |pages[|pages| - 1].messages|
  }

  /** The messages on a sequence of pages, in order. */
  function AllMessages(pages: seq<Page>): seq<MessageId>
  {
    if pages == [] then [] else AllMessages(pages[..|pages| - 1]) + pages[|pages| - 1].messages
  }

  /** One message copy into `dest` per page. */
  function CopyOps(pages: seq<Page>, dest: Folder): seq<Op>
  {
    if pages == [] then [] else CopyOps(pages[..|pages| - 1], dest) + [CopyMessages(pages[|pages| - 1].messages, dest)]
  }

  /** The message ids a trace copies, in order. */
  function CopiedIds(ops: seq<Op>): seq<MessageId>
  {
    if ops == [] then []
    else CopiedIds(ops[..|ops| - 1]) + (if ops[|ops| - 1].CopyMessages? then ops[|ops| - 1].ids else [])
  }

  /** Every message listed on the pages is copied once, in listing order,
      and the count is the number of messages copied. */
  lemma {:induction false} CopyOpsCopyAll(pages: seq<Page>, dest: Folder)
    ensures CopiedIds(CopyOps(pages, dest)) == AllMessages(pages)
    ensures MessageCount(pages) == |AllMessages(pages)|
    ensures |CopyOps(pages, dest)| == |pages|
  {
    if pages != [] {
      var init := pages[..|pages| - 1];
      CopyOpsCopyAll(init, dest);
      var ops := CopyOps(pages, dest);
      assert ops[..|ops| - 1] == CopyOps(init, dest);
    }
  }

  lemma {:induction false} MessagesSnoc(pages: seq<Page>, p: Page, dest: Folder)
    ensures CopyOps(pages + [p], dest) == CopyOps(pages, dest) + [CopyMessages(p.messages, dest)]
    ensures MessageCount(pages + [p]) == MessageCount(pages) + |p.messages|
  {
    assert (pages + [p])[..|pages|] == pages;
  }

  /** MailFolderNode.merge: copies the messages of `src`'s folder into
      `target`'s folder one page at a time, reading pages until one has no
      continuation id, and returns how many messages it copied. */
  method Merge(src: MailFolderNode, target: MailFolderNode, h: Host) returns (count: nat, ops: seq<Op>)
    requires Ends(h.pages(src.folder))
    ensures ops == CopyOps(Fetched(h.pages(src.folder)), target.folder)
    ensures count == MessageCount(Fetched(h.pages(src.folder)))
  {
    var pages := h.pages(src.folder);
    var k := 0;
    var chunk := pages[0];
    count := |chunk.messages|;
    ops := [CopyMessages(chunk.messages, target.folder)];
    assert pages[..1] == [] + [chunk];
    MessagesSnoc([], chunk, target.folder);
    while Truthy(chunk.id)
      invariant k <= LastRead(pages) && chunk == pages[k]
      invariant ops == CopyOps(pages[..k + 1], target.folder) && count == MessageCount(pages[..k + 1])
      decreases LastRead(pages) - k
    {
      k := k + 1;
      chunk := pages[k];
      assert pages[..k + 1] == pages[..k] + [chunk];
      MessagesSnoc(pages[..k], chunk, target.folder);
      ops := ops + [CopyMessages(chunk.messages, target.folder)];
      count := count + |chunk.messages|;
    }
  }

  /** merge reads at least one page, copies every page it reads, including an
      empty first one, and stops at the first page without a continuation id:
      every message of those pages is copied once, and counted. */
  lemma {:induction false} MergeCopiesEveryPage(pages: seq<Page>, dest: Folder)
    requires Ends(pages)
    ensures var fetched := Fetched(pages);
      |fetched| >= 1 && !Truthy(fetched[|fetched| - 1].id) &&
      (forall i :: 0 <= i < |fetched| - 1 ==> Truthy(fetched[i].id)) &&
      |CopyOps(fetched, dest)| == |fetched| &&
      CopyOps(fetched, dest)[0] == CopyMessages(pages[0].messages, dest) &&
      CopiedIds(CopyOps(fetched, dest)) == AllMessages(fetched) &&
      MessageCount(fetched) == |AllMessages(fetched)|
  {
    var fetched := Fetched(pages);
    CopyOpsCopyAll(fetched, dest);
    CopyOpsFirst(fetched, dest);
  }

  lemma {:induction false} CopyOpsFirst(pages: seq<Page>, dest: Folder)
    requires pages != []
    ensures CopyOps(pages, dest) != [] && CopyOps(pages, dest)[0] == CopyMessages(pages[0].messages, dest)
  {
    if |pages| > 1 {
      CopyOpsFirst(pages[..|pages| - 1], dest);
    }
  }

  /** One folder that transfer counts in folderCount: copied whole, with
      the folder copy and the message total of the copy, or merged, with
      the message copies and the number of messages copied. */
  datatype Event =
    | Copied(folder: Folder, op: Op, total: nat)
    | Merged(folder: Folder, copies: seq<Op>, count: nat)

  /** The folder and message copies of a sequence of events, in order. */
  function Ops(es: seq<Event>): seq<Op>
  {
    if es == [] then []
    else
      var e := es[|es| - 1];
      Ops(es[..|es| - 1]) + (if e.Copied? then [e.op] else e.copies)
  }

  /** The messages counted for a sequence of events. */
  function Messages(es: seq<Event>): nat
  {
    if es == [] then 0
    else
      var e := es[|es| - 1];
      Messages(es[..|es| - 1]) + (if e.Copied? then e.total else e.count)
  }

  /** The names of the folders copied whole, in order. */
  function CopiedNames(es: seq<Event>): seq<string>
  {
    if es == [] then []
    else CopiedNames(es[..|es| - 1]) + (if es[|es| - 1].Copied? then [Name(es[|es| - 1].folder)] else [])
  }

  /** The names of the folders merged, in order. */
  function MergedNames(es: seq<Event>): seq<string>
  {
    if es == [] then []
    else MergedNames(es[..|es| - 1]) + (if es[|es| - 1].Merged? then [Name(es[|es| - 1].folder)] else [])
  }

  /** Every event is a copy or a merge. */
  lemma {:induction false} CopiedOrMerged(es: seq<Event>)
    ensures |es| == |CopiedNames(es)| + |MergedNames(es)|
  {
    if es != [] {
      CopiedOrMerged(es[..|es| - 1]);
    }
  }

  lemma {:induction false} EventSnoc(es: seq<Event>, e: Event)
    ensures Ops(es + [e]) == Ops(es) + (if e.Copied? then [e.op] else e.copies)
    ensures Messages(es + [e]) == Messages(es) + (if e.Copied? then e.total else e.count)
    ensures CopiedNames(es + [e]) == CopiedNames(es) + (if e.Copied? then [Name(e.folder)] else [])
    ensures MergedNames(es + [e]) == MergedNames(es) + (if e.Merged? then [Name(e.folder)] else [])
  {
    assert (es + [e])[..|es|] == es;
  }

  /** The operations, messages, copies and merges of two runs of events add
      up. */
  lemma {:induction false} EventsAppend(a: seq<Event>, b: seq<Event>)
    ensures Ops(a + b) == Ops(a) + Ops(b)
    ensures Messages(a + b) == Messages(a) + Messages(b)
    ensures CopiedNames(a + b) == CopiedNames(a) + CopiedNames(b)
    ensures MergedNames(a + b) == MergedNames(a) + MergedNames(b)
    decreases |b|
  {
    if b == [] {
      assert a + b == a;
    } else {
      var init, e := b[..|b| - 1], b[|b| - 1];
      assert a + b == (a + init) + [e];
      EventsAppend(a, init);
      EventSnoc(a + init, e);
      EventSnoc(init, e);
      assert b == init + [e];
      Assoc(Ops(a), Ops(init), if e.Copied? then [e.op] else e.copies);
      Assoc(CopiedNames(a), CopiedNames(init), if e.Copied? then [Name(e.folder)] else []);
      Assoc(MergedNames(a), MergedNames(init), if e.Merged? then [Name(e.folder)] else []);
    }
  }

  /** Where a folder copied under a destination node with these attributes
      goes. */
  function Into(isRoot: bool, account: Account, folder: Folder): Place
  {
    if isRoot then IntoAccount(account) else IntoFolder(folder)
  }

  /** What transfer does for a source folder that has a counterpart: merge
      its messages into the counterpart. */
  function MergeOf(src: Folder, dest: Folder, h: Host): Event
    requires Finite(h)
  {
    var fetched := Fetched(h.pages(src));
    Merged(src, CopyOps(fetched, dest), MessageCount(fetched))
  }

  /** A frame transfer can process without failing: a root node always has a
      destination, and no node below the top is a root. */
  predicate Walkable(src: Tree, dest: Option<Tree>)
  {
    NoRootBelow(src) && (src.isRoot ==> dest.Some?)
  }

  /** What transfer does for the source tree `src`, matched with `dest` (if
      any) under the destination node `parent`: nothing for an ignored
      folder; a copy of the whole folder into `parent` when there is no
      match, counting the messages of the copy; otherwise a merge (none for a
      root) followed by the children, last child first. */
  function TransferOf(src: Tree, dest: Option<Tree>, parent: Tree, h: Host): seq<Event>
    requires Finite(h) && Walkable(src, dest)
    decreases src, |src.children| + 1
  {
    if ShouldIgnore(src.folder) then []
    else if !src.isRoot && dest.None? then
      var place := Into(parent.isRoot, parent.account, parent.folder);
      [Copied(src.folder, CopyFolder(src.folder, place), h.total(h.copyFolder(src.folder, place)))]
    else
      var own := if src.isRoot then [] else [MergeOf(src.folder, dest.value.folder, h)];
      own + ChildrenOf(src, dest.value, |src.children|, h)
  }

  /** TransferOf for the first `n` children of `src`, matched below `dest`,
      last child first. */
  function ChildrenOf(src: Tree, dest: Tree, n: nat, h: Host): seq<Event>
    requires Finite(h) && NoRootBelow(src) && n <= |src.children|
    decreases src, n
  {
    if n == 0 then []
    else
      var c := src.children[n - 1];
      TransferOf(c, Match(Some(dest), c), dest, h) + ChildrenOf(src, dest, n - 1, h)
  }

  // ---------------------------------------------------------------------
  // Relation to the conflict report

  /** The names of the flagged reports, at every level, each report before
      its children. */
  function FlaggedNames(rs: seq<Report>): seq<string>
  {
    if rs == [] then []
    else
      var r := rs[|rs| - 1];
      FlaggedNames(rs[..|rs| - 1]) + (if r.conflict then [r.name] else []) + FlaggedNames(r.children)
  }

  /** The names of the unflagged reports that are not below another
      unflagged report: the folders that are new at the top of their branch. */
  function NewTopNames(rs: seq<Report>): seq<string>
  {
    if rs == [] then []
    else
      var r := rs[|rs| - 1];
      NewTopNames(rs[..|rs| - 1]) + (if r.conflict then NewTopNames(r.children) else [r.name])
  }

  lemma {:induction false} FlaggedAppend(a: seq<Report>, b: seq<Report>)
    ensures FlaggedNames(a + b) == FlaggedNames(a) + FlaggedNames(b)
    ensures NewTopNames(a + b) == NewTopNames(a) + NewTopNames(b)
    decreases |b|
  {
    if b == [] {
      assert a + b == a;
    } else {
      var init, r := b[..|b| - 1], b[|b| - 1];
      assert (a + b)[..|a + b| - 1] == a + init;
      assert (a + b)[|a + b| - 1] == r;
      FlaggedAppend(a, init);
      Assoc(FlaggedNames(a), FlaggedNames(init), (if r.conflict then [r.name] else []) + FlaggedNames(r.children));
      Assoc(FlaggedNames(a) + FlaggedNames(init), if r.conflict then [r.name] else [], FlaggedNames(r.children));
      Assoc(FlaggedNames(init), if r.conflict then [r.name] else [], FlaggedNames(r.children));
      Assoc(NewTopNames(a), NewTopNames(init), if r.conflict then NewTopNames(r.children) else [r.name]);
    }
  }

  lemma {:induction false} Single(r: Report)
    ensures FlaggedNames([r]) == (if r.conflict then [r.name] else []) + FlaggedNames(r.children)
    ensures NewTopNames([r]) == (if r.conflict then NewTopNames(r.children) else [r.name])
  {
    assert [r][..0] == [];
  }

  /** With no destination nothing is flagged, at any depth. */
  lemma {:induction false} UnmatchedNotFlagged(src: Tree)
    ensures FlaggedNames(Emit(src, None)) == []
    decreases src, |src.children| + 1
  {
    if !ShouldIgnore(src.folder) {
      UnmatchedRevNotFlagged(src, |src.children|);
      if !src.isRoot {
        var kids := EmitRev(src, None, |src.children|);
        Single(Report(Name(src.folder), Type(src.folder), IsSpecial(src.folder), false, CountConflicts(kids), kids));
      }
    }
  }

  lemma {:induction false} UnmatchedRevNotFlagged(src: Tree, n: nat)
    requires n <= |src.children|
    ensures FlaggedNames(EmitRev(src, None, n)) == []
    decreases src, n
  {
    if n > 0 {
      var c := src.children[n - 1];
      assert Match(None, c) == None;
      UnmatchedNotFlagged(c);
      UnmatchedRevNotFlagged(src, n - 1);
      AddNothing(Emit(c, None), EmitRev(src, None, n - 1));
    }
  }

  lemma {:induction false} AddNothing(rx: seq<Report>, ry: seq<Report>)
    requires FlaggedNames(rx) == [] && FlaggedNames(ry) == []
    ensures FlaggedNames(rx + ry) == []
  {
    FlaggedAppend(rx, ry);
  }

  /** transfer and compare agree, folder for folder and in the same order:
      transfer copies whole exactly the folders compare reports unflagged
      under the root or under a flagged report, and merges exactly the
      folders compare flags, at any depth. So no folder below a copied one
      is copied or merged, and folderCount is the number of the two. */
  lemma {:induction false} TransferFollowsCompare(src: Tree, dest: Option<Tree>, parent: Tree, h: Host)
    requires Finite(h) && Walkable(src, dest)
    ensures CopiedNames(TransferOf(src, dest, parent, h)) == NewTopNames(Emit(src, dest))
    ensures MergedNames(TransferOf(src, dest, parent, h)) == FlaggedNames(Emit(src, dest))
    ensures |TransferOf(src, dest, parent, h)| == |NewTopNames(Emit(src, dest))| + |FlaggedNames(Emit(src, dest))|
  {
    CopiesFollowCompare(src, dest, parent, h);
    MergesFollowCompare(src, dest, parent, h);
    CopiedOrMerged(TransferOf(src, dest, parent, h));
  }

  /** The folders transfer copies whole are, in order, the unflagged reports
      at the top of their branch. */
  lemma {:induction false} CopiesFollowCompare(src: Tree, dest: Option<Tree>, parent: Tree, h: Host)
    requires Finite(h) && Walkable(src, dest)
    ensures CopiedNames(TransferOf(src, dest, parent, h)) == NewTopNames(Emit(src, dest))
    decreases src, |src.children| + 1
  {
    if !ShouldIgnore(src.folder) {
      var kids := EmitRev(src, dest, |src.children|);
      var r := TransferOf(src, dest, parent, h);
      if !src.isRoot && dest.None? {
        Single(Report(Name(src.folder), Type(src.folder), IsSpecial(src.folder), false, CountConflicts(kids), kids));
        EventSnoc([], r[0]);
        assert [] + [r[0]] == r;
      } else {
        var own := if src.isRoot then [] else [MergeOf(src.folder, dest.value.folder, h)];
        ChildCopiesFollowCompare(src, dest.value, |src.children|, h);
        EventsAppend(own, ChildrenOf(src, dest.value, |src.children|, h));
        if !src.isRoot {
          Single(Report(Name(src.folder), Type(src.folder), IsSpecial(src.folder), true, CountConflicts(kids), kids));
          EventSnoc([], own[0]);
          assert [] + [own[0]] == own;
        }
      }
    }
  }

  lemma {:induction false} ChildCopiesFollowCompare(src: Tree, dest: Tree, n: nat, h: Host)
    requires Finite(h) && NoRootBelow(src) && n <= |src.children|
    ensures CopiedNames(ChildrenOf(src, dest, n, h)) == NewTopNames(EmitRev(src, Some(dest), n))
    decreases src, n
  {
    if n > 0 {
      var c := src.children[n - 1];
      var m := Match(Some(dest), c);
      CopiesFollowCompare(c, m, dest, h);
      ChildCopiesFollowCompare(src, dest, n - 1, h);
      AddCopies(TransferOf(c, m, dest, h), ChildrenOf(src, dest, n - 1, h), Emit(c, m), EmitRev(src, Some(dest), n - 1));
    }
  }

  lemma {:induction false} AddCopies(x: seq<Event>, y: seq<Event>, rx: seq<Report>, ry: seq<Report>)
    requires CopiedNames(x) == NewTopNames(rx) && CopiedNames(y) == NewTopNames(ry)
    ensures CopiedNames(x + y) == NewTopNames(rx + ry)
  {
    FlaggedAppend(rx, ry);
    EventsAppend(x, y);
  }

  /** The folders transfer merges are, in order, the flagged reports. */
  lemma {:induction false} MergesFollowCompare(src: Tree, dest: Option<Tree>, parent: Tree, h: Host)
    requires Finite(h) && Walkable(src, dest)
    ensures MergedNames(TransferOf(src, dest, parent, h)) == FlaggedNames(Emit(src, dest))
    decreases src, |src.children| + 1
  {
    if !ShouldIgnore(src.folder) {
      var kids := EmitRev(src, dest, |src.children|);
      var r := TransferOf(src, dest, parent, h);
      if !src.isRoot && dest.None? {
        UnmatchedNotFlagged(src);
        EventSnoc([], r[0]);
        assert [] + [r[0]] == r;
      } else {
        var own := if src.isRoot then [] else [MergeOf(src.folder, dest.value.folder, h)];
        ChildMergesFollowCompare(src, dest.value, |src.children|, h);
        EventsAppend(own, ChildrenOf(src, dest.value, |src.children|, h));
        if !src.isRoot {
          Single(Report(Name(src.folder), Type(src.folder), IsSpecial(src.folder), true, CountConflicts(kids), kids));
          EventSnoc([], own[0]);
          assert [] + [own[0]] == own;
        }
      }
    }
  }

  lemma {:induction false} ChildMergesFollowCompare(src: Tree, dest: Tree, n: nat, h: Host)
    requires Finite(h) && NoRootBelow(src) && n <= |src.children|
    ensures MergedNames(ChildrenOf(src, dest, n, h)) == FlaggedNames(EmitRev(src, Some(dest), n))
    decreases src, n
  {
    if n > 0 {
      var c := src.children[n - 1];
      var m := Match(Some(dest), c);
      MergesFollowCompare(c, m, dest, h);
      ChildMergesFollowCompare(src, dest, n - 1, h);
      AddMerges(TransferOf(c, m, dest, h), ChildrenOf(src, dest, n - 1, h), Emit(c, m), EmitRev(src, Some(dest), n - 1));
    }
  }

  lemma {:induction false} AddMerges(x: seq<Event>, y: seq<Event>, rx: seq<Report>, ry: seq<Report>)
    requires MergedNames(x) == FlaggedNames(rx) && MergedNames(y) == FlaggedNames(ry)
    ensures MergedNames(x + y) == FlaggedNames(rx + ry)
  {
    FlaggedAppend(rx, ry);
    EventsAppend(x, y);
  }

  /** A tree with no match, or whose ignored subtrees aside every folder has
      a match below the matched parent, all the way down. */
  predicate Covers(src: Tree, dest: Option<Tree>)
    decreases src, |src.children| + 1
  {
    ShouldIgnore(src.folder) || ((src.isRoot || dest.Some?) && CoversChildren(src, dest, |src.children|))
  }

  /** Covers for the first `n` children of `src`, each with its match below
      `dest`. */
  predicate CoversChildren(src: Tree, dest: Option<Tree>, n: nat)
    requires n <= |src.children|
    decreases src, n
  {
    n == 0 || (Covers(src.children[n - 1], Match(dest, src.children[n - 1])) && CoversChildren(src, dest, n - 1))
  }

  /** When every folder has its counterpart, transfer copies no folder and
      merges, in the walk's order, exactly the folders that are neither the
      root nor ignored. */
  lemma {:induction false} CoveredNoCopies(src: Tree, dest: Option<Tree>, parent: Tree, h: Host)
    requires Finite(h) && Walkable(src, dest) && Covers(src, dest)
    ensures CopiedNames(TransferOf(src, dest, parent, h)) == []
    ensures MergedNames(TransferOf(src, dest, parent, h)) == VisibleNames(src)
    decreases src, |src.children| + 1
  {
    if !ShouldIgnore(src.folder) {
      var own := if src.isRoot then [] else [MergeOf(src.folder, dest.value.folder, h)];
      var name: seq<string> := if src.isRoot then [] else [Name(src.folder)];
      CoveredChildren(src, dest.value, |src.children|, h);
      if !src.isRoot {
        EventSnoc([], own[0]);
        assert [] + [own[0]] == own;
      }
      AddCovered(own, ChildrenOf(src, dest.value, |src.children|, h), name, VisibleNamesRev(src, |src.children|));
    }
  }

  lemma {:induction false} CoveredChildren(src: Tree, dest: Tree, n: nat, h: Host)
    requires Finite(h) && NoRootBelow(src) && n <= |src.children|
    requires CoversChildren(src, Some(dest), n)
    ensures CopiedNames(ChildrenOf(src, dest, n, h)) == []
    ensures MergedNames(ChildrenOf(src, dest, n, h)) == VisibleNamesRev(src, n)
    decreases src, n
  {
    if n > 0 {
      var c := src.children[n - 1];
      var m := Match(Some(dest), c);
      CoveredNoCopies(c, m, dest, h);
      CoveredChildren(src, dest, n - 1, h);
      AddCovered(TransferOf(c, m, dest, h), ChildrenOf(src, dest, n - 1, h), VisibleNames(c), VisibleNamesRev(src, n - 1));
    }
  }

  lemma {:induction false} AddCovered(x: seq<Event>, y: seq<Event>, vx: seq<string>, vy: seq<string>)
    requires CopiedNames(x) == [] && MergedNames(x) == vx && CopiedNames(y) == [] && MergedNames(y) == vy
    ensures CopiedNames(x + y) == [] && MergedNames(x + y) == vx + vy
  {
    EventsAppend(x, y);
  }

  /** transfer from an account with Inbox and Work (holding Drafts) to one
      with only Inbox: Work is copied whole into the destination root, so
      Drafts goes with it and is never visited, and Inbox is merged; two
      folders in all. */
  lemma TransferInboxWorkScenario(src: Account, dst: Account, h: Host)
    requires Finite(h)
    requires src.folders == [Folder(Some("Inbox"), Some("inbox"), []),
                             Folder(Some("Work"), None, [Folder(Some("Drafts"), None, [])])]
    requires dst.folders == [Folder(Some("Inbox"), Some("inbox"), [])]
    ensures NoRootBelow(Build(RootFolder(src), src, true))
    ensures var s, d := Build(RootFolder(src), src, true), Build(RootFolder(dst), dst, true);
      CopiedNames(TransferOf(s, Some(d), d, h)) == ["Work"] &&
      MergedNames(TransferOf(s, Some(d), d, h)) == ["Inbox"] &&
      |TransferOf(s, Some(d), d, h)| == 2
  {
    var s, d := Build(RootFolder(src), src, true), Build(RootFolder(dst), dst, true);
    BuildMirrors(RootFolder(src), src, true);
    InboxWorkScenario(src, dst);
    var draftsR := Report("Drafts", "user", false, false, 0, []);
    var workR := Report("Work", "user", false, false, 0, [draftsR]);
    var inboxR := Report("Inbox", "inbox", true, true, 0, []);
    assert Emit(s, Some(d)) == [workR, inboxR];
    TransferFollowsCompare(s, Some(d), d, h);
    FlaggedAppend([workR], [inboxR]);
    assert [workR] + [inboxR] == [workR, inboxR];
    Single(workR);
    Single(inboxR);
    Single(draftsR);
    assert FlaggedNames([]) == [] && NewTopNames([]) == [];
  }

  /** No two siblings share a name, at any level. */
  predicate DistinctNames(t: Tree)
  {
    (forall i, j :: 0 <= i < j < |t.children| ==> !IsSame(t.children[i].folder, t.children[j].folder)) &&
    forall i :: 0 <= i < |t.children| ==> DistinctNames(t.children[i])
  }

  /** A tree covers itself when sibling names are distinct: each child is
      matched with itself. */
  lemma {:induction false} IdenticalCovers(t: Tree)
    requires DistinctNames(t)
    ensures Covers(t, Some(t))
    decreases t, |t.children| + 1
  {
    IdenticalCoversChildren(t, |t.children|);
  }

  lemma {:induction false} IdenticalCoversChildren(t: Tree, n: nat)
    requires DistinctNames(t) && n <= |t.children|
    ensures CoversChildren(t, Some(t), n)
    decreases t, n
  {
    if n > 0 {
      SelfMatch(t, n - 1);
      IdenticalCovers(t.children[n - 1]);
      IdenticalCoversChildren(t, n - 1);
    }
  }

  lemma {:induction false} SelfMatch(t: Tree, i: nat)
    requires DistinctNames(t) && i < |t.children|
    ensures Match(Some(t), t.children[i]) == Some(t.children[i])
  {
    var c := t.children[i];
    MatchFound(Some(t), c);
    var j :| 0 <= j < |t.children| && t.children[j] == Match(Some(t), c).value;
    assert IsSame(t.children[j].folder, c.folder);
    if j < i {
    } else if i < j {
      IsSameEquivalence(t.children[j].folder, c.folder, c.folder);
    }
  }

  /** Transferring a tree onto an identical one, whose sibling names are
      distinct, copies no folder and merges each folder that is neither the
      root nor ignored. */
  lemma {:induction false} IdenticalTransfer(t: Tree, h: Host)
    requires Finite(h) && NoRootBelow(t) && DistinctNames(t)
    ensures CopiedNames(TransferOf(t, Some(t), t, h)) == []
    ensures MergedNames(TransferOf(t, Some(t), t, h)) == VisibleNames(t)
    ensures |TransferOf(t, Some(t), t, h)| == |VisibleNames(t)|
  {
    IdenticalCovers(t);
    CoveredNoCopies(t, Some(t), t, h);
    CopiedOrMerged(TransferOf(t, Some(t), t, h));
  }

  /** `a` and `b` have the same shape and the same names at every level:
      each child of `a` has the name of the child of `b` at its position. */
  predicate SameNames(a: Tree, b: Tree)
    decreases a
  {
    |a.children| == |b.children| &&
    forall i :: 0 <= i < |a.children| ==>
      IsSame(a.children[i].folder, b.children[i].folder) && SameNames(a.children[i], b.children[i])
  }

  /** Against a tree with the same names, whose sibling names are distinct,
      each child is matched with the child at its position. */
  lemma {:induction false} NamesMatch(a: Tree, b: Tree, i: nat)
    requires SameNames(a, b) && DistinctNames(b) && i < |a.children|
    ensures Match(Some(b), a.children[i]) == Some(b.children[i])
  {
    var c := a.children[i];
    IsSameEquivalence(c.folder, b.children[i].folder, b.children[i].folder);
    MatchFound(Some(b), c);
    var j :| 0 <= j < |b.children| && b.children[j] == Match(Some(b), c).value;
    var fs := TreeFolders(b.children);
    FindSameFirst(fs, c.folder);
    if j < i {
      IsSameEquivalence(b.children[j].folder, c.folder, b.children[i].folder);
    }
  }

  /** A tree covers any tree with the same names whose sibling names are
      distinct. */
  lemma {:induction false} NamesCover(a: Tree, b: Tree)
    requires SameNames(a, b) && DistinctNames(b)
    ensures Covers(a, Some(b))
    decreases a, |a.children| + 1
  {
    NamesCoverChildren(a, b, |a.children|);
  }

  lemma {:induction false} NamesCoverChildren(a: Tree, b: Tree, n: nat)
    requires SameNames(a, b) && DistinctNames(b) && n <= |a.children|
    ensures CoversChildren(a, Some(b), n)
    decreases a, n
  {
    if n > 0 {
      NamesMatch(a, b, n - 1);
      NamesCover(a.children[n - 1], b.children[n - 1]);
      NamesCoverChildren(a, b, n - 1);
    }
  }

  /** Transferring onto a tree, in any account, with the same folder names at
      every level and distinct sibling names copies no folder and merges, in
      the walk's order, each source folder that is neither the root nor
      ignored. */
  lemma {:induction false} SameNamesTransfer(a: Tree, b: Tree, h: Host)
    requires Finite(h) && NoRootBelow(a) && SameNames(a, b) && DistinctNames(b)
    ensures CopiedNames(TransferOf(a, Some(b), b, h)) == []
    ensures MergedNames(TransferOf(a, Some(b), b, h)) == VisibleNames(a)
    ensures |TransferOf(a, Some(b), b, h)| == |VisibleNames(a)|
  {
    NamesCover(a, b);
    CoveredNoCopies(a, Some(b), b, h);
    CopiedOrMerged(TransferOf(a, Some(b), b, h));
  }

  /** Ignored folders, and the folders below them, are never copied or
      merged: an ignored tree yields nothing, and no folder transfer copies
      or merges is ignored. */
  lemma {:induction false} IgnoredUntouched(src: Tree, dest: Option<Tree>, parent: Tree, h: Host)
    requires Finite(h) && Walkable(src, dest)
    ensures ShouldIgnore(src.folder) ==> TransferOf(src, dest, parent, h) == []
    ensures forall e :: e in TransferOf(src, dest, parent, h) ==> !ShouldIgnore(e.folder)
    decreases src, |src.children| + 1
  {
    if !ShouldIgnore(src.folder) && (src.isRoot || dest.Some?) {
      IgnoredUntouchedChildren(src, dest.value, |src.children|, h);
    }
  }

  lemma {:induction false} IgnoredUntouchedChildren(src: Tree, dest: Tree, n: nat, h: Host)
    requires Finite(h) && NoRootBelow(src) && n <= |src.children|
    ensures forall e :: e in ChildrenOf(src, dest, n, h) ==> !ShouldIgnore(e.folder)
    decreases src, n
  {
    if n > 0 {
      var c := src.children[n - 1];
      IgnoredUntouched(c, Match(Some(dest), c), dest, h);
      IgnoredUntouchedChildren(src, dest, n - 1, h);
    }
  }

  // ---------------------------------------------------------------------
  // The walk over MailFolderNode objects

  /** MailFolderNode.copy: asks the host to copy the folder of `src` into
      the account (when `target` is a root) or into `target`'s folder, and
      wraps the new folder in a node of `target`'s account. The node is not
      appended to `target`. */
  method Copy(src: MailFolderNode, target: MailFolderNode, h: Host) returns (node: MailFolderNode, op: Op)
    ensures fresh(node) && node.children == [] && !node.isRoot && node.account == target.account
    ensures op == CopyFolder(src.folder, Into(target.isRoot, target.account, target.folder))
    ensures node.folder == h.copyFolder(src.folder, op.into)
  {
    var place := if target.isRoot then IntoAccount(target.account) else IntoFolder(target.folder);
    op := CopyFolder(src.folder, place);
    node := new MailFolderNode(h.copyFolder(src.folder, place), target.account, false, 0);
  }

  /** A stack entry of transfer: the source node, its match if any, and the
      destination node it is to go under. */
  datatype Frame = Frame(src: MailFolderNode, dest: MailFolderNode?, parent: MailFolderNode)

  /** A frame as trees. */
  datatype Task = Task(src: Tree, dest: Option<Tree>, parent: Tree)

  /** `n` is recorded in `T` with its own folder, account and root flag. */
  ghost predicate Agrees(n: MailFolderNode, T: map<MailFolderNode, Tree>)
  {
    n in T && T[n].folder == n.folder && T[n].account == n.account && T[n].isRoot == n.isRoot
  }

  ghost predicate FrameIn(f: Frame, T: map<MailFolderNode, Tree>)
  {
    Agrees(f.src, T) && (f.dest != null ==> Agrees(f.dest, T)) && Agrees(f.parent, T)
  }

  ghost function TaskOf(f: Frame, T: map<MailFolderNode, Tree>): Task
    requires FrameIn(f, T)
  {
    Task(T[f.src], OptT(f.dest, T), T[f.parent])
  }

  ghost predicate TasksOk(todo: seq<Task>)
  {
    forall i :: 0 <= i < |todo| ==> Walkable(todo[i].src, todo[i].dest)
  }

  /** The stack stands for the tasks, entry by entry. */
  ghost predicate FramesOk(stack: seq<Frame>, todo: seq<Task>, T: map<MailFolderNode, Tree>)
  {
    |stack| == |todo| && forall i :: 0 <= i < |stack| ==> FrameIn(stack[i], T) && TaskOf(stack[i], T) == todo[i]
  }

  /** What is left to do for a stack of tasks: the top one first. */
  ghost function Pending(todo: seq<Task>, h: Host): seq<Event>
    requires Finite(h) && TasksOk(todo)
  {
    if todo == [] then []
    else
      var t := todo[|todo| - 1];
      TransferOf(t.src, t.dest, t.parent, h) + Pending(todo[..|todo| - 1], h)
  }

  /** The nodes left to visit, at most. */
  ghost function Work(todo: seq<Task>): nat
  {
    if todo == [] then 0 else Work(todo[..|todo| - 1]) + TreeSize(todo[|todo| - 1].src)
  }

  /** The tasks transfer pushes for the first `n` children of `s`, matched
      below `d`. */
  ghost function ChildTasks(s: Tree, d: Tree, n: nat): (r: seq<Task>)
    requires n <= |s.children|
    ensures |r| == n
  {
    if n == 0 then [] else ChildTasks(s, d, n - 1) + [Task(s.children[n - 1], Match(Some(d), s.children[n - 1]), d)]
  }

  lemma {:induction false} ChildTaskAt(s: Tree, d: Tree, n: nat, i: nat)
    requires i < n <= |s.children|
    ensures ChildTasks(s, d, n)[i] == Task(s.children[i], Match(Some(d), s.children[i]), d)
  {
    if i < n - 1 {
      ChildTaskAt(s, d, n - 1, i);
    }
  }

  lemma {:induction false} PushOne(rest: seq<Task>, s: Tree, d: Tree, n: nat)
    requires 0 < n <= |s.children|
    ensures var q := rest + ChildTasks(s, d, n);
      q[..|q| - 1] == rest + ChildTasks(s, d, n - 1) &&
      q[|q| - 1] == Task(s.children[n - 1], Match(Some(d), s.children[n - 1]), d)
  {
    var x := Task(s.children[n - 1], Match(Some(d), s.children[n - 1]), d);
    Assoc(rest, ChildTasks(s, d, n - 1), [x]);
  }

  /** The pushed children are tasks transfer can process. */
  lemma {:induction false} PushTasksOk(rest: seq<Task>, s: Tree, d: Tree, n: nat)
    requires TasksOk(rest) && NoRootBelow(s) && n <= |s.children|
    ensures TasksOk(rest + ChildTasks(s, d, n))
  {
    if n > 0 {
      PushTasksOk(rest, s, d, n - 1);
      PushOne(rest, s, d, n);
      ChildWalkable(s, n - 1);
    } else {
      assert rest + ChildTasks(s, d, n) == rest;
    }
  }

  /** Pushing the children of a task leaves their transfers, last child
      first, ahead of what was pending. */
  lemma {:induction false} PushTasks(rest: seq<Task>, s: Tree, d: Tree, n: nat, h: Host)
    requires Finite(h) && TasksOk(rest) && NoRootBelow(s) && n <= |s.children|
    ensures TasksOk(rest + ChildTasks(s, d, n))
    ensures Pending(rest + ChildTasks(s, d, n), h) == ChildrenOf(s, d, n, h) + Pending(rest, h)
  {
    PushTasksOk(rest, s, d, n);
    if n == 0 {
      assert rest + ChildTasks(s, d, n) == rest;
    } else {
      PushTasks(rest, s, d, n - 1, h);
      PushOne(rest, s, d, n);
      var c := s.children[n - 1];
      Assoc(TransferOf(c, Match(Some(d), c), d, h), ChildrenOf(s, d, n - 1, h), Pending(rest, h));
    }
  }

  /** Pushing the children of a task replaces its size by theirs. */
  lemma {:induction false} PushWork(rest: seq<Task>, s: Tree, d: Tree, n: nat)
    requires n <= |s.children|
    ensures Work(rest + ChildTasks(s, d, n)) == Work(rest) + TreeSizeRev(s, n)
  {
    if n == 0 {
      assert rest + ChildTasks(s, d, n) == rest;
    } else {
      PushWork(rest, s, d, n - 1);
      PushOne(rest, s, d, n);
    }
  }

  lemma {:induction false} ChildWalkable(s: Tree, i: nat)
    requires NoRootBelow(s) && i < |s.children|
    ensures forall d :: Walkable(s.children[i], d)
  {
  }

  /** The frames transfer pushes for the children of `src` (Array.find with
      MailFolderNode.isSame picks each match). */
  function Pushed(src: MailFolderNode, dest: MailFolderNode): (r: seq<Frame>)
    reads src, dest
    ensures |r| == |src.children|
    ensures forall i :: 0 <= i < |r| ==> r[i] == Frame(src.children[i], FindNode(dest, src.children[i]), dest)
  {
    seq(|src.children|, i requires 0 <= i < |src.children| reads src, dest =>
      Frame(src.children[i], FindNode(dest, src.children[i]), dest))
  }

  method PushKids(stack: seq<Frame>, src: MailFolderNode, dest: MailFolderNode) returns (stack': seq<Frame>)
    ensures stack' == stack + Pushed(src, dest)
  {
    stack' := stack;
    var k := 0;
    while k < |src.children|
      invariant k <= |src.children| && stack' == stack + Pushed(src, dest)[..k]
    {
      var child := src.children[k];
      stack' := stack' + [Frame(child, FindNode(dest, child), dest)];
      assert Pushed(src, dest)[..k + 1] == Pushed(src, dest)[..k] + [Pushed(src, dest)[k]];
      k := k + 1;
    }
    assert Pushed(src, dest)[..k] == Pushed(src, dest);
  }

  lemma {:induction false} PushedFrames(stack: seq<Frame>, rest: seq<Task>, src: MailFolderNode, dest: MailFolderNode,
                                        T: map<MailFolderNode, Tree>)
    requires Represents(T) && src in T && dest in T && FramesOk(stack, rest, T)
    ensures FramesOk(stack + Pushed(src, dest), rest + ChildTasks(T[src], T[dest], |src.children|), T)
  {
    var p := Pushed(src, dest);
    var q := ChildTasks(T[src], T[dest], |src.children|);
    forall i | 0 <= i < |stack + p| ensures FrameIn((stack + p)[i], T) && TaskOf((stack + p)[i], T) == (rest + q)[i] {
      if i < |stack| {
        assert (stack + p)[i] == stack[i] && (rest + q)[i] == rest[i];
      } else {
        PushedFrame(src, dest, T, i - |stack|);
        assert (stack + p)[i] == p[i - |stack|] && (rest + q)[i] == q[i - |stack|];
      }
    }
  }

  /** The frame pushed for a child stands for the task pushed for it. */
  lemma {:induction false} PushedFrame(src: MailFolderNode, dest: MailFolderNode, T: map<MailFolderNode, Tree>, i: nat)
    requires Represents(T) && src in T && dest in T && i < |src.children|
    ensures NodeOk(T, src)
    ensures FrameIn(Pushed(src, dest)[i], T)
    ensures TaskOf(Pushed(src, dest)[i], T) == ChildTasks(T[src], T[dest], |src.children|)[i]
  {
    assert NodeOk(T, src);
    var child := src.children[i];
    var m := FindNode(dest, child);
    FindNodeMatches(T, dest, child);
    assert NodeOk(T, child) && NodeOk(T, dest);
    if m != null {
      assert NodeOk(T, m);
    }
    ChildTaskAt(T[src], T[dest], |src.children|, i);
  }

  /** The walk so far: the stack stands for the pending tasks, and the
      events so far followed by the pending ones are the whole transfer. */
  ghost predicate Walking(stack: seq<Frame>, todo: seq<Task>, acc: seq<Event>, goal: seq<Event>,
                          T: map<MailFolderNode, Tree>, h: Host)
    requires Finite(h)
  {
    FramesOk(stack, todo, T) && TasksOk(todo) && acc + Pending(todo, h) == goal
  }

  /** The top frame stands for the top task, and a root frame has a match. */
  lemma {:induction false} TopFrame(stack: seq<Frame>, todo: seq<Task>, acc: seq<Event>, goal: seq<Event>,
                                    T: map<MailFolderNode, Tree>, h: Host)
    requires Finite(h) && Walking(stack, todo, acc, goal, T, h) && |stack| > 0
    ensures var f := stack[|stack| - 1];
      FrameIn(f, T) && TaskOf(f, T) == todo[|todo| - 1] && (f.src.isRoot ==> f.dest != null)
  {
    assert Walkable(todo[|todo| - 1].src, todo[|todo| - 1].dest);
  }

  /** Popping an ignored folder changes nothing else. */
  lemma {:induction false} SkipStep(stack: seq<Frame>, todo: seq<Task>, acc: seq<Event>, goal: seq<Event>,
                                    T: map<MailFolderNode, Tree>, h: Host)
    requires Finite(h) && Walking(stack, todo, acc, goal, T, h) && |stack| > 0
    requires ShouldIgnore(stack[|stack| - 1].src.folder)
    ensures Walking(stack[..|stack| - 1], todo[..|todo| - 1], acc, goal, T, h)
    ensures Work(todo[..|todo| - 1]) < Work(todo)
  {
    TopFrame(stack, todo, acc, goal, T, h);
  }

  /** Popping a folder without a match and copying it adds the copy to the
      events so far. */
  lemma {:induction false} CopyStep(stack: seq<Frame>, todo: seq<Task>, acc: seq<Event>, goal: seq<Event>,
                                    T: map<MailFolderNode, Tree>, h: Host, e: Event)
    requires Finite(h) && Walking(stack, todo, acc, goal, T, h) && |stack| > 0
    requires var f := stack[|stack| - 1];
      !ShouldIgnore(f.src.folder) && !f.src.isRoot && f.dest == null &&
      e == Copied(f.src.folder, CopyFolder(f.src.folder, Into(f.parent.isRoot, f.parent.account, f.parent.folder)),
                  h.total(h.copyFolder(f.src.folder, Into(f.parent.isRoot, f.parent.account, f.parent.folder))))
    ensures Walking(stack[..|stack| - 1], todo[..|todo| - 1], acc + [e], goal, T, h)
    ensures Work(todo[..|todo| - 1]) < Work(todo)
  {
    TopFrame(stack, todo, acc, goal, T, h);
    Assoc(acc, [e], Pending(todo[..|todo| - 1], h));
  }

  /** Popping a root or a matched folder, merging it (not a root), and
      pushing its children adds the merge to the events so far and leaves
      the children's transfers pending. */
  lemma {:induction false} MergeStep(stack: seq<Frame>, todo: seq<Task>, acc: seq<Event>, goal: seq<Event>,
                                     T: map<MailFolderNode, Tree>, h: Host, own: seq<Event>, stack': seq<Frame>)
    returns (todo': seq<Task>)
    requires Finite(h) && Represents(T) && Walking(stack, todo, acc, goal, T, h) && |stack| > 0
    requires var f := stack[|stack| - 1];
      !ShouldIgnore(f.src.folder) && f.dest != null &&
      own == (if f.src.isRoot then [] else [MergeOf(f.src.folder, f.dest.folder, h)]) &&
      stack' == stack[..|stack| - 1] + Pushed(f.src, f.dest)
    ensures Walking(stack', todo', acc + own, goal, T, h)
    ensures Work(todo') < Work(todo)
  {
    var f := stack[|stack| - 1];
    TopFrame(stack, todo, acc, goal, T, h);
    var t := todo[|todo| - 1];
    var rest := todo[..|todo| - 1];
    var n := |t.src.children|;
    PushedFrames(stack[..|stack| - 1], rest, f.src, f.dest, T);
    assert NodeOk(T, f.src);
    todo' := rest + ChildTasks(t.src, t.dest.value, n);
    PushTasks(rest, t.src, t.dest.value, n, h);
    PushWork(rest, t.src, t.dest.value, n);
    var kids := ChildrenOf(t.src, t.dest.value, n, h);
    assert TransferOf(t.src, t.dest, t.parent, h) == own + kids;
    Assoc(own, kids, Pending(rest, h));
    Assoc(acc, own, kids + Pending(rest, h));
  }

  /** MailFolderNode.transfer: walks this tree against `target` with a stack
      of frames, the target first; an ignored folder is skipped, a folder
      without a match is copied under its destination parent and counted with
      its copy's message total, a matched one is merged, and the children of
      a merged folder or of a root are pushed with their matches. It counts
      one folder per event of TransferOf and returns the messages and the
      folder and message copies of those events. */
  method Transfer(self: MailFolderNode, target: MailFolderNode, h: Host, ghost T: map<MailFolderNode, Tree>)
    returns (folderCount: nat, messageCount: nat, ops: seq<Op>)
    requires Represents(T) && self in T && target in T
    requires Finite(h) && Walkable(T[self], Some(T[target]))
    ensures folderCount == |TransferOf(T[self], Some(T[target]), T[target], h)|
    ensures messageCount == Messages(TransferOf(T[self], Some(T[target]), T[target], h))
    ensures ops == Ops(TransferOf(T[self], Some(T[target]), T[target], h))
  {
    folderCount, messageCount, ops := 0, 0, [];
    var stack := [Frame(self, target, target)];
    ghost var todo, goal := Start(self, target, T, h);
    ghost var acc: seq<Event> := [];
    while |stack| > 0
      invariant Represents(T) && Walking(stack, todo, acc, goal, T, h)
      invariant folderCount == |acc| && messageCount == Messages(acc) && ops == Ops(acc)
      decreases Work(todo)
    {
      var folders, messages, newOps;
      ghost var todo', added;
      stack, todo', added, folders, messages, newOps := Visit(stack, todo, acc, goal, T, h);
      EventsAppend(acc, added);
      folderCount, messageCount, ops := folderCount + folders, messageCount + messages, ops + newOps;
      todo, acc := todo', acc + added;
    }
    assert acc + [] == acc;
  }

  /** One turn of transfer's loop: pops the top frame and skips, copies or
      merges it, pushing the children of a merged folder or a root; returns
      the folders and messages it counts and the folder and message copies
      it asked for, as the events it adds. */
  method Visit(stack: seq<Frame>, ghost todo: seq<Task>, ghost acc: seq<Event>, ghost goal: seq<Event>,
               ghost T: map<MailFolderNode, Tree>, h: Host)
    returns (stack': seq<Frame>, ghost todo': seq<Task>, ghost added: seq<Event>,
             folders: nat, messages: nat, newOps: seq<Op>)
    requires Finite(h) && Represents(T) && Walking(stack, todo, acc, goal, T, h) && |stack| > 0
    ensures Represents(T) && Walking(stack', todo', acc + added, goal, T, h) && Work(todo') < Work(todo)
    ensures folders == |added| && messages == Messages(added) && newOps == Ops(added)
  {
    var f := stack[|stack| - 1];
    var rest := stack[..|stack| - 1];
    TopFrame(stack, todo, acc, goal, T, h);
    if ShouldIgnore(f.src.folder) {
      SkipStep(stack, todo, acc, goal, T, h);
      assert acc + [] == acc;
      stack', todo', added, folders, messages, newOps := rest, todo[..|todo| - 1], [], 0, 0, [];
    } else if !f.src.isRoot && f.dest == null {
      var node, op := Copy(f.src, f.parent, h);
      var total := h.total(node.folder);
      ghost var e := Copied(f.src.folder, op, total);
      CopyStep(stack, todo, acc, goal, T, h, e);
      EventSnoc([], e);
      assert [] + [e] == [e];
      stack', todo', added, folders, messages, newOps := rest, todo[..|todo| - 1], [e], 1, total, [op];
    } else {
      var dest := f.dest;
      added, folders, messages, newOps := [], 0, 0, [];
      if !f.src.isRoot {
        var count, copies := Merge(f.src, dest, h);
        added := [MergeOf(f.src.folder, dest.folder, h)];
        EventSnoc([], added[0]);
        assert [] + [added[0]] == added;
        folders, messages, newOps := 1, count, copies;
      }
      stack' := PushKids(rest, f.src, dest);
      todo' := MergeStep(stack, todo, acc, goal, T, h, added, stack');
    }
  }

  /** The walk at its start: one frame, the whole transfer pending. */
  lemma {:induction false} Start(self: MailFolderNode, target: MailFolderNode, T: map<MailFolderNode, Tree>, h: Host)
    returns (todo: seq<Task>, goal: seq<Event>)
    requires Represents(T) && self in T && target in T
    requires Finite(h) && Walkable(T[self], Some(T[target]))
    ensures Walking([Frame(self, target, target)], todo, [], goal, T, h)
    ensures goal == TransferOf(T[self], Some(T[target]), T[target], h)
  {
    assert NodeOk(T, self) && NodeOk(T, target);
    todo := [Task(T[self], Some(T[target]), T[target])];
    goal := TransferOf(T[self], Some(T[target]), T[target], h);
    assert TasksOk(todo) && todo[..0] == [];
    assert Pending(todo, h) == goal + [];
  }
}
