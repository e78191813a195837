/**
 * The conflict report of MailFolderNode.compare (background/background.js):
 * the source tree walked against a destination tree, each surviving source
 * folder reported with a flag saying whether its matched destination parent
 * already has a folder of the same name.
 *
 * `Emit` is the value-level reference for what the walk reports below one
 * source node; `Compare` is the report root.
 */
module Conflicts {
  import opened Wrappers
  import opened Folders
  import opened FolderNodes

  /** A MailFolderConflictInfo as a value. */
  datatype Report = Report(name: string, reportType: string, isSpecial: bool,
                           conflict: bool, conflicts: nat, children: seq<Report>)

  /** The number of reports flagged as conflicting. */
  function CountConflicts(rs: seq<Report>): (c: nat)
    ensures c <= |rs|
  {
    if rs == [] then 0
    else (if rs[|rs| - 1].conflict then 1 else 0) + CountConflicts(rs[..|rs| - 1])
  }

  /** No report is flagged exactly when the count of flagged reports is zero. */
  lemma {:induction false} CountConflictsZero(rs: seq<Report>)
    ensures CountConflicts(rs) == 0 <==> forall i :: 0 <= i < |rs| ==> !rs[i].conflict
  {
    if rs != [] {
      CountConflictsZero(rs[..|rs| - 1]);
    }
  }

  /** The folders of a sequence of trees. */
  function TreeFolders(ts: seq<Tree>): (r: seq<Folder>)
    ensures |r| == |ts| && forall i :: 0 <= i < |ts| ==> r[i] == ts[i].folder
  {
    seq(|ts|, i requires 0 <= i < |ts| => ts[i].folder)
  }

  /** The child of the matched destination that a source child is compared
      with: the first one of the same name, if there is a destination at all. */
  function Match(dest: Option<Tree>, c: Tree): (r: Option<Tree>)
  {
    if dest.None? then None
    else
      match FindSame(TreeFolders(dest.value.children), c.folder)
      case None => None
      case Some(k) => Some(dest.value.children[k])
  }

  /** A source child is matched exactly when there is a destination with a
      child of the same name, and the match is such a child. */
  lemma MatchFound(dest: Option<Tree>, c: Tree)
    ensures Match(dest, c).Some? <==>
      dest.Some? && exists i :: 0 <= i < |dest.value.children| && IsSame(dest.value.children[i].folder, c.folder)
    ensures Match(dest, c).Some? ==> Match(dest, c).value in dest.value.children && IsSame(Match(dest, c).value.folder, c.folder)
  {
    if dest.Some? {
      var fs := TreeFolders(dest.value.children);
      FindSameFirst(fs, c.folder);
      if FindSame(fs, c.folder).None? {
        assert forall k :: 0 <= k < |fs| ==> !IsSame(fs[k], c.folder);
      }
    }
  }

  /** What the walk reports below a report parent for one source node and
      its matched destination: nothing for an ignored folder, the reports of
      its children for a root (whose report is the parent itself), and
      otherwise one report, conflicting exactly when there is a match. */
  function Emit(src: Tree, dest: Option<Tree>): seq<Report>
    decreases src, |src.children| + 1
  {
    if ShouldIgnore(src.folder) then []
    else
      var kids := EmitRev(src, dest, |src.children|);
      if src.isRoot then kids
      else [Report(Name(src.folder), Type(src.folder), IsSpecial(src.folder), dest.Some?, CountConflicts(kids), kids)]
  }

  /** The reports of the first `n` children of `src`, last child first: the
      children are pushed in order, so the last one is popped first. */
  function EmitRev(src: Tree, dest: Option<Tree>, n: nat): seq<Report>
    requires n <= |src.children|
    decreases src, n
  {
    if n == 0 then []
    else Emit(src.children[n - 1], Match(dest, src.children[n - 1])) + EmitRev(src, dest, n - 1)
  }

  /** The report root of comparing `src` with `dest`: it carries the source
      node's own attributes, is never flagged, and counts its conflicting
      children. */
  function Compare(src: Tree, dest: Option<Tree>): Report
  {
    var kids := Emit(src, dest);
    Report(Name(src.folder), Type(src.folder), IsSpecial(src.folder), false, CountConflicts(kids), kids)
  }

  /** The names of a forest of reports, all levels, each report before its
      children. */
  function AllNames(rs: seq<Report>): seq<string>
  {
    if rs == [] then []
    else AllNames(rs[..|rs| - 1]) + [rs[|rs| - 1].name] + AllNames(rs[|rs| - 1].children)
  }

  /** The names of the folders of a tree that a walk reports, each before
      the folders below it and siblings last first: every folder that is not
      a root and is not in an ignored subtree. */
  function VisibleNames(t: Tree): seq<string>
    decreases t, |t.children| + 1
  {
    if ShouldIgnore(t.folder) then []
    else (if t.isRoot then [] else [Name(t.folder)]) + VisibleNamesRev(t, |t.children|)
  }

  /** VisibleNames of the first `n` children of `t`, last child first. */
  function VisibleNamesRev(t: Tree, n: nat): seq<string>
    requires n <= |t.children|
    decreases t, n
  {
    if n == 0 then [] else VisibleNames(t.children[n - 1]) + VisibleNamesRev(t, n - 1)
  }

  lemma {:induction false} AllNamesAppend(a: seq<Report>, b: seq<Report>)
    ensures AllNames(a + b) == AllNames(a) + AllNames(b)
    decreases |b|
  {
    if b == [] {
      assert a + b == a;
    } else {
      var init := b[..|b| - 1];
      assert (a + b)[..|a + b| - 1] == a + init;
      assert (a + b)[|a + b| - 1] == b[|b| - 1];
      AllNamesAppend(a, init);
    }
  }

  /** The walk reports each visible source folder exactly once and nothing
      else: the names of all reports, in order, are the names of the
      visible folders in the walk's order. */
  lemma {:induction false} EmitNamesVisible(src: Tree, dest: Option<Tree>)
    ensures AllNames(Emit(src, dest)) == VisibleNames(src)
    decreases src, |src.children| + 1
  {
    if !ShouldIgnore(src.folder) {
      var kids := EmitRev(src, dest, |src.children|);
      EmitRevNamesVisible(src, dest, |src.children|);
      if !src.isRoot {
        var r := Report(Name(src.folder), Type(src.folder), IsSpecial(src.folder), dest.Some?, CountConflicts(kids), kids);
        assert Emit(src, dest) == [r];
        assert [r][..0] == [];
      }
    }
  }

  lemma {:induction false} EmitRevNamesVisible(src: Tree, dest: Option<Tree>, n: nat)
    requires n <= |src.children|
    ensures AllNames(EmitRev(src, dest, n)) == VisibleNamesRev(src, n)
    decreases src, n
  {
    if n > 0 {
      var c := src.children[n - 1];
      EmitNamesVisible(c, Match(dest, c));
      EmitRevNamesVisible(src, dest, n - 1);
      AllNamesAppend(Emit(c, Match(dest, c)), EmitRev(src, dest, n - 1));
    }
  }

  /** A report with its conflict information cleared, all levels down. */
  function Strip(r: Report): Report
    decreases r
  {
    Report(r.name, r.reportType, r.isSpecial, false, 0, Outline(r.children))
  }

  /** A forest of reports with its conflict information cleared. */
  function Outline(rs: seq<Report>): (o: seq<Report>)
    ensures |o| == |rs|
    decreases rs
  {
    seq(|rs|, i requires 0 <= i < |rs| => Strip(rs[i]))
  }

  lemma OutlineAppend(a: seq<Report>, b: seq<Report>)
    ensures Outline(a + b) == Outline(a) + Outline(b)
  {
    assert forall i :: 0 <= i < |a| ==> (a + b)[i] == a[i];
    assert forall i :: 0 <= i < |b| ==> (a + b)[|a| + i] == b[i];
  }

  /** Comparing with no destination flags nothing, at any depth, and it is
      what any comparison shows once its conflict information is cleared:
      the shape of the report does not depend on the destination. */
  lemma {:induction false} OutlineIsUnmatched(src: Tree, dest: Option<Tree>)
    ensures Outline(Emit(src, dest)) == Emit(src, None)
    decreases src, |src.children| + 1
  {
    if !ShouldIgnore(src.folder) {
      OutlineRevIsUnmatched(src, dest, |src.children|);
      var kids := EmitRev(src, dest, |src.children|);
      var none := EmitRev(src, None, |src.children|);
      if !src.isRoot {
        CountConflictsOutline(kids);
        var r := Report(Name(src.folder), Type(src.folder), IsSpecial(src.folder), dest.Some?, CountConflicts(kids), kids);
        assert Emit(src, dest) == [r];
        assert Strip(r) == Report(Name(src.folder), Type(src.folder), IsSpecial(src.folder), false, 0, none);
      }
    }
  }

  lemma {:induction false} OutlineRevIsUnmatched(src: Tree, dest: Option<Tree>, n: nat)
    requires n <= |src.children|
    ensures Outline(EmitRev(src, dest, n)) == EmitRev(src, None, n)
    decreases src, n
  {
    if n > 0 {
      var c := src.children[n - 1];
      OutlineIsUnmatched(c, Match(dest, c));
      OutlineIsUnmatched(c, None);
      OutlineRevIsUnmatched(src, dest, n - 1);
      OutlineAppend(Emit(c, Match(dest, c)), EmitRev(src, dest, n - 1));
    }
  }

  lemma CountConflictsOutline(rs: seq<Report>)
    ensures CountConflicts(Outline(rs)) == 0
  {
    CountConflictsZero(Outline(rs));
  }

  /** The names of a forest of reports, in order. */
  function Names(rs: seq<Report>): (r: seq<string>)
    ensures |r| == |rs| && forall i :: 0 <= i < |rs| ==> r[i] == rs[i].name
  {
    seq(|rs|, i requires 0 <= i < |rs| => rs[i].name)
  }

  /** The names of the folders of `ts` that are not ignored, in listing order. */
  function KeptNames(ts: seq<Tree>): seq<string>
  {
    if ts == [] then []
    else KeptNames(ts[..|ts| - 1]) + (if ShouldIgnore(ts[|ts| - 1].folder) then [] else [Name(ts[|ts| - 1].folder)])
  }

  function Reverse<T>(s: seq<T>): (r: seq<T>)
    ensures |r| == |s| && forall i :: 0 <= i < |s| ==> r[i] == s[|s| - 1 - i]
  {
    if s == [] then [] else [s[|s| - 1]] + Reverse(s[..|s| - 1])
  }

  /** Under a report parent the walk lists the surviving children of a source
      folder in the reverse of their listing order (last pushed, first
      popped), provided none of them is itself a root. */
  lemma {:induction false} SiblingsReversed(src: Tree, dest: Option<Tree>, n: nat)
    requires n <= |src.children|
    requires forall i :: 0 <= i < n ==> !src.children[i].isRoot
    ensures Names(EmitRev(src, dest, n)) == Reverse(KeptNames(src.children[..n]))
  {
    if n > 0 {
      var c := src.children[n - 1];
      var head := Emit(c, Match(dest, c));
      SiblingsReversed(src, dest, n - 1);
      assert src.children[..n][..n - 1] == src.children[..n - 1];
      var kept := KeptNames(src.children[..n - 1]);
      var tail := if ShouldIgnore(c.folder) then [] else [Name(c.folder)];
      assert KeptNames(src.children[..n]) == kept + tail;
      assert Names(head) == tail;
      ReverseAppend(kept, tail);
      NamesAppend(head, EmitRev(src, dest, n - 1));
    }
  }

  lemma ReverseAppend<T>(a: seq<T>, b: seq<T>)
    ensures Reverse(a + b) == Reverse(b) + Reverse(a)
  {
    var r, l := Reverse(a + b), Reverse(b) + Reverse(a);
    assert |r| == |l|;
    forall i | 0 <= i < |r| ensures r[i] == l[i] {
      if i < |b| {
        assert l[i] == b[|b| - 1 - i];
      } else {
        assert l[i] == a[|a| - 1 - (i - |b|)];
      }
    }
  }

  lemma NamesAppend(a: seq<Report>, b: seq<Report>)
    ensures Names(a + b) == Names(a) + Names(b)
  {
    assert forall i :: 0 <= i < |a| ==> (a + b)[i] == a[i];
    assert forall i :: 0 <= i < |b| ==> (a + b)[|a| + i] == b[i];
  }

  /** A surviving non-root child of the compared folder is reported once, and
      it is flagged exactly when the matched destination has a child of the
      same name; its counter is the number of its own flagged children. */
  lemma ChildFlag(src: Tree, dest: Option<Tree>, i: nat)
    requires i < |src.children|
    requires !ShouldIgnore(src.children[i].folder) && !src.children[i].isRoot
    ensures var c := src.children[i];
      var rs := Emit(c, Match(dest, c));
      |rs| == 1 &&
      rs[0].name == Name(c.folder) &&
      (rs[0].conflict <==>
        dest.Some? && exists j :: 0 <= j < |dest.value.children| && IsSame(dest.value.children[j].folder, c.folder)) &&
      rs[0].conflicts == CountConflicts(rs[0].children)
  {
    MatchFound(dest, src.children[i]);
  }

  /** A source account with Inbox, Work and Work/Drafts compared with a
      destination that only has Inbox: Inbox is flagged, Work and its child
      are new, and the siblings come out last first. */
  lemma InboxWorkScenario(src: Account, dst: Account)
    requires src.folders == [Folder(Some("Inbox"), Some("inbox"), []),
                             Folder(Some("Work"), None, [Folder(Some("Drafts"), None, [])])]
    requires dst.folders == [Folder(Some("Inbox"), Some("inbox"), [])]
    ensures Compare(Build(RootFolder(src), src, true), Some(Build(RootFolder(dst), dst, true))) ==
      Report("<root>", "user", false, false, 1,
        [Report("Work", "user", false, false, 0, [Report("Drafts", "user", false, false, 0, [])]),
         Report("Inbox", "inbox", true, true, 0, [])])
  {
    var inboxF, draftsF := Folder(Some("Inbox"), Some("inbox"), []), Folder(Some("Drafts"), None, []);
    var workF := Folder(Some("Work"), None, [draftsF]);
    var inbox, drafts := Build(inboxF, src, false), Build(draftsF, src, false);
    var work := Build(workF, src, false);
    assert inbox == Tree(inboxF, src, false, []);
    assert drafts == Tree(draftsF, src, false, []);
    assert work == Tree(workF, src, false, [drafts]);
    var s := Build(RootFolder(src), src, true);
    assert s == Tree(RootFolder(src), src, true, [inbox, work]);
    var dInbox := Build(inboxF, dst, false);
    assert dInbox == Tree(inboxF, dst, false, []);
    var d := Build(RootFolder(dst), dst, true);
    assert d == Tree(RootFolder(dst), dst, true, [dInbox]);
    assert TreeFolders(d.children) == [inboxF];
    assert FindSame([inboxF], workF) == None;
    assert FindSame([inboxF], inboxF) == Some(0);
    var draftsR := Report("Drafts", "user", false, false, 0, []);
    assert Emit(drafts, None) == [draftsR];
    assert EmitRev(work, None, 1) == [draftsR];
    assert Emit(work, None) == [Report("Work", "user", false, false, 0, [draftsR])];
    assert IsSpecial(inboxF);
    var workR := Report("Work", "user", false, false, 0, [draftsR]);
    var inboxR := Report("Inbox", "inbox", true, true, 0, []);
    assert Emit(inbox, Some(dInbox)) == [inboxR];
    assert Match(Some(d), work) == None;
    assert Match(Some(d), inbox) == Some(dInbox);
    assert EmitRev(s, Some(d), 1) == [inboxR];
    assert EmitRev(s, Some(d), 2) == [workR, inboxR];
    assert CountConflicts([workR, inboxR]) == 1 by {
      assert [workR, inboxR][..1] == [workR];
    }
  }

  /** A trash folder is left out of the report together with everything
      below it, whatever its subfolders' types and whatever the destination. */
  lemma TrashScenario(src: Account, dest: Option<Tree>)
    requires src.folders == [Folder(Some("Trash"), Some("trash"), [Folder(Some("Saved"), Some("inbox"), [])])]
    ensures Compare(Build(RootFolder(src), src, true), dest) == Report("<root>", "user", false, false, 0, [])
  {
    var trashF := Folder(Some("Trash"), Some("trash"), [Folder(Some("Saved"), Some("inbox"), [])]);
    var s := Build(RootFolder(src), src, true);
    assert s.children == [Build(trashF, src, false)];
    assert ShouldIgnore(trashF);
    assert EmitRev(s, dest, 1) == [];
  }

  /** The child of `dest` that `child` is matched with (Array.prototype.find
      with MailFolderNode.isSame), or null; null when there is no `dest`. */
  function FindNode(dest: MailFolderNode?, child: MailFolderNode): (r: MailFolderNode?)
    reads dest
    ensures r != null ==> dest != null && r in dest.children && IsSame(r.folder, child.folder)
  {
    if dest == null then null
    else
      match FindSame(FoldersOf(dest.children), child.folder)
      case None => null
      case Some(k) => dest.children[k]
  }

  /** Matching nodes agrees with matching the trees they stand for. */
  lemma FindNodeMatches(T: map<MailFolderNode, Tree>, dest: MailFolderNode?, child: MailFolderNode)
    requires Represents(T) && child in T && (dest != null ==> dest in T)
    ensures FindNode(dest, child) != null ==> FindNode(dest, child) in T
    ensures OptT(FindNode(dest, child), T) == Match(OptT(dest, T), T[child])
  {
    assert NodeOk(T, child);
    if dest != null {
      var t := T[dest];
      assert NodeOk(T, dest);
      assert TreeFolders(t.children) == FoldersOf(dest.children) by {
        forall i | 0 <= i < |dest.children| ensures t.children[i].folder == dest.children[i].folder {
          assert NodeOk(T, dest.children[i]);
        }
      }
    }
  }
}
