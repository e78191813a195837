/**
 * Folders as the mail host lists them, and the attribute accessors that
 * MailFolderNode derives from a folder (name, type, isSpecial, shouldIgnore,
 * isSame), together with the two flat walks over a folder listing: the
 * natural pre-order and the order in which MailFolderNode.toArray emits it.
 */
module Folders {
  import opened Wrappers

  /** A folder as the host's folder listing reports it. The name and the type
      may be missing; `subFolders` is the nested listing below it. */
  datatype Folder = Folder(name: Option<string>, folderType: Option<string>, subFolders: seq<Folder>)

  /** A mail account: its key and its top-level folder listing. */
  datatype Account = Account(id: string, folders: seq<Folder>)

  /** JavaScript truthiness of an optional string: present and non-empty. */
  predicate Truthy(s: Option<string>)
  {
    s.Some? && s.value != ""
  }

  /** The special folder types (background/background.js `folderTypes`). */
  const FolderTypes: seq<string> := ["inbox", "drafts", "sent", "trash", "templates", "archives", "junk", "outbox"]

  /** The types whose folders are never compared or transferred. */
  const IgnoredFolderTypes: seq<string> := ["trash", "junk"]

  /** The synthetic folder that stands for an account's folder root. */
  function RootFolder(account: Account): Folder
  {
    Folder(None, None, account.folders)
  }

  function Name(f: Folder): string
  {
    if Truthy(f.name) then f.name.value else "<root>"
  }

  function Type(f: Folder): string
  {
    if Truthy(f.folderType) then f.folderType.value else "user"
  }

  predicate IsSpecial(f: Folder)
  {
    Type(f) in FolderTypes
  }

  predicate ShouldIgnore(f: Folder)
  {
    Type(f) in IgnoredFolderTypes
  }

  /** Two folders are "the same" when their raw names are identical: a missing
      name matches only a missing name, and the "<root>" default plays no part. */
  predicate IsSame(a: Folder, b: Folder)
  {
    a.name == b.name
  }

  /** The accessors' defaults: a folder without a (non-empty) name is called
      "<root>", one without a type is a "user" folder, which is neither special
      nor ignored; a given name or type is passed through unchanged. */
  lemma AccessorDefaults(f: Folder)
    ensures Name(f) == (if Truthy(f.name) then f.name.value else "<root>") && Name(f) != ""
    ensures !Truthy(f.folderType) ==> Type(f) == "user" && !IsSpecial(f) && !ShouldIgnore(f)
    ensures Truthy(f.folderType) ==> Type(f) == f.folderType.value
  {
  }

  /** Every ignored type is a special type, so an ignored folder is special. */
  lemma IgnoredIsSpecial(f: Folder)
    ensures forall t :: t in IgnoredFolderTypes ==> t in FolderTypes
    ensures ShouldIgnore(f) ==> IsSpecial(f)
  {
  }

  /** Name matching is an equivalence: it only looks at one field. */
  lemma IsSameEquivalence(a: Folder, b: Folder, c: Folder)
    ensures IsSame(a, a)
    ensures IsSame(a, b) ==> IsSame(b, a)
    ensures IsSame(a, b) && IsSame(b, c) ==> IsSame(a, c)
  {
  }

  /** Index of the first folder of `fs` that IsSame `f` (Array.prototype.find). */
  function FindSame(fs: seq<Folder>, f: Folder): (r: Option<nat>)
    ensures r.Some? ==> r.value < |fs| && IsSame(fs[r.value], f)
  {
    if fs == [] then None
    else if IsSame(fs[0], f) then Some(0)
    else match FindSame(fs[1..], f)
      case None => None
      case Some(k) => Some(k + 1)
  }

  /** FindSame finds the first folder of the same name, and finds none
      exactly when no folder has that name. */
  lemma {:induction false} FindSameFirst(fs: seq<Folder>, f: Folder)
    ensures FindSame(fs, f).Some? ==> forall k :: 0 <= k < FindSame(fs, f).value ==> !IsSame(fs[k], f)
    ensures FindSame(fs, f).None? <==> forall k :: 0 <= k < |fs| ==> !IsSame(fs[k], f)
  {
    if fs != [] && !IsSame(fs[0], f) {
      FindSameFirst(fs[1..], f);
      assert forall k :: 1 <= k < |fs| ==> fs[k] == fs[1..][k - 1];
    }
  }

  /** Every folder below a listing, parents before children, siblings in order. */
  function Preorder(fs: seq<Folder>): seq<Folder>
  {
    if fs == [] then [] else [fs[0]] + Preorder(fs[0].subFolders) + Preorder(fs[1..])
  }

  /** The descendants of a folder, not counting the folder itself. */
  function Descendants(f: Folder): seq<Folder>
  {
    Preorder(f.subFolders)
  }

  /** The order a last-in-first-out walk emits a listing in: the last sibling
      first, each folder immediately followed by its own subtree. */
  function RevPreorder(fs: seq<Folder>): seq<Folder>
  {
    if fs == [] then [] else [fs[|fs| - 1]] + RevPreorder(fs[|fs| - 1].subFolders) + RevPreorder(fs[..|fs| - 1])
  }

  /** The size of a folder's subtree, itself included. */
  function Size(f: Folder): nat
  {
    1 + |Preorder(f.subFolders)|
  }

  lemma {:induction false} PreorderAppend(a: seq<Folder>, b: seq<Folder>)
    ensures Preorder(a + b) == Preorder(a) + Preorder(b)
  {
    if a == [] {
      assert a + b == b;
    } else {
      assert (a + b)[0] == a[0];
      assert (a + b)[1..] == a[1..] + b;
      PreorderAppend(a[1..], b);
    }
  }

  lemma {:induction false} RevPreorderAppend(a: seq<Folder>, b: seq<Folder>)
    ensures RevPreorder(a + b) == RevPreorder(b) + RevPreorder(a)
  {
    if b == [] {
      assert a + b == a;
    } else {
      var ab := a + b;
      var last := b[|b| - 1];
      var init := b[..|b| - 1];
      assert ab[|ab| - 1] == last;
      assert ab[..|ab| - 1] == a + init;
      RevPreorderAppend(a, init);
      calc {
        RevPreorder(ab);
        [last] + RevPreorder(last.subFolders) + RevPreorder(a + init);
        [last] + RevPreorder(last.subFolders) + (RevPreorder(init) + RevPreorder(a));
        ([last] + RevPreorder(last.subFolders) + RevPreorder(init)) + RevPreorder(a);
      }
    }
  }

  /** The walk order is a permutation of the natural order: every folder of the
      listing appears exactly as often in one as in the other. */
  lemma {:induction false} RevPreorderIsPermutation(fs: seq<Folder>)
    ensures multiset(RevPreorder(fs)) == multiset(Preorder(fs))
    decreases |Preorder(fs)|
  {
    if fs != [] {
      var n := |fs|;
      var last := fs[n - 1];
      assert fs == fs[..n - 1] + [last];
      PreorderAppend(fs[..n - 1], [last]);
      assert Preorder([last]) == [last] + Preorder(last.subFolders) by {
        assert [last][1..] == [];
      }
      RevPreorderIsPermutation(last.subFolders);
      RevPreorderIsPermutation(fs[..n - 1]);
    }
  }

  /** Every folder listed below a forest has a smaller subtree than the whole forest. */
  lemma {:induction false} PreorderBelow(fs: seq<Folder>, x: Folder)
    requires x in Preorder(fs)
    ensures Size(x) <= |Preorder(fs)|
  {
    if fs != [] {
      PreorderAppend([fs[0]], fs[1..]);
      assert [fs[0]] + fs[1..] == fs;
      assert [fs[0]][1..] == [];
      if x == fs[0] {
      } else if x in Preorder(fs[0].subFolders) {
        PreorderBelow(fs[0].subFolders, x);
      } else {
        PreorderBelow(fs[1..], x);
      }
    }
  }

  /** A folder's subfolders have strictly smaller subtrees. */
  lemma SubFolderSmaller(f: Folder, i: nat)
    requires i < |f.subFolders|
    ensures Size(f.subFolders[i]) < Size(f)
  {
    var s := f.subFolders;
    assert s == s[..i] + [s[i]] + s[i + 1..];
    PreorderAppend(s[..i] + [s[i]], s[i + 1..]);
    PreorderAppend(s[..i], [s[i]]);
    assert [s[i]][1..] == [];
  }

  /** The walk order of a folder's listing holds each descendant exactly as
      often as the listing does, and never the folder itself. */
  lemma WalkListsDescendants(f: Folder)
    ensures multiset(RevPreorder(f.subFolders)) == multiset(Descendants(f))
    ensures f !in RevPreorder(f.subFolders)
  {
    RevPreorderIsPermutation(f.subFolders);
    NotOwnDescendant(f);
    assert f !in multiset(Descendants(f));
  }

  /** No folder is among its own descendants. */
  lemma NotOwnDescendant(f: Folder)
    ensures f !in Descendants(f)
  {
    if f in Descendants(f) {
      PreorderBelow(f.subFolders, f);
    }
  }
}
