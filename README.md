# Account copy: folder reconciliation and filter copying, in Dafny

This project models the core of a mail-client extension that copies one
mail account into another. It covers two parts.

**Folders** (`background/background.js`):

- A `MailFolderNode` tree is built from an account's nested folder listing (`fromAccount`).
- The tree can be flattened (`toArray`).
- It can be compared with a destination tree (`compare`). The result is a `MailFolderConflictInfo` report: each source folder is flagged when its matched destination parent already has a folder of the same name.
- It can be transferred (`transfer`):
  - a source folder without a counterpart is copied whole;
  - a folder with a counterpart has its messages merged page by page (`merge`);
  - transfer counts the folders and messages it handled.
- Trash and junk folders, with everything below them, are never compared or transferred.

**Message filters** (`api/MessageFilters/implementation.js` and `CompareMsgFilters` in `background/background.js`):

- `getForAccount` lists an account's filters as plain references.
- `copy` appends every filter of one account to the end of another's filter list.
- `CompareMsgFilters` marks each source filter that looks the same as a destination filter: same name, same description and same comma-joined search terms.

## How it is modelled

**Folders** (`folders.dfy`)
- A host folder is a value: an optional name, an optional type and its sub-folders.
- JavaScript falsiness of a name or type is "missing or empty".
- The accessors `name`, `type`, `isSpecial`, `shouldIgnore` and `isSame` are functions.

**Folder nodes** (`folder_nodes.dfy`)
- `MailFolderNode` is a class whose `children` field is updated in place.
- `fromAccount` and `toArray` are methods with the source's explicit stacks.
- Each is proved against a value-level definition:
  - `Build` gives the tree `fromAccount` creates;
  - `RevPreorder` gives the order in which `toArray`'s stack emits folders.
- A ghost map `T` relates every node to the `Tree` value below it.

**Compare** (`compare.dfy`, `conflict_walk.dfy`)
- `Emit` and `Compare` are the reference definition of the report, as values.
- The method `CompareNodes` runs the stack walk over `MailFolderNode`s. It builds `MailFolderConflictInfo` objects, whose `conflict`, `conflicts` and `children` fields it updates in place.
- It is proved to build exactly the report `Compare` describes.
- Because children are pushed in order and popped last-first, a report's children appear in the reverse of the listing order.

**Transfer** (`transfer.dfy`)
- The host is a value of oracles. It gives:
  - the folder `messenger.folders.copy` creates;
  - the message total of a folder;
  - the sequence of pages `messages.list` and `continueList` hand out for a folder.
- `TransferOf` is the reference definition, as a sequence of events: one `Copied` per folder copied whole and one `Merged` per folder merged.
- `Transfer` runs the stack walk over nodes. It returns the counts and every folder copy and message copy it issued, and all three are proved to come from `TransferOf`. The host reads (`getFolderInfo`, `messages.list`, `continueList`) are not recorded.
- `Merge` is the pager loop, proved against the pages the host hands out.

**Message filters** (`message_filters.dfy`, `filter_compare.dfy`)
- The host's account registry is a map. An account's incoming server and a server's filter list may each be missing.
- A filter list is a class, since `copy` inserts into it in place and two servers may share one list.
- `GetForAccount` and `Copy` are methods with the source's loops.
- `CompareMsgFilters.isSame` and the `execute` mapping are functions.

**Behaviour worth noting**
- The node `copy` returns is not appended to the destination tree (`background/background.js:457-459`), so later matching never sees a folder copied earlier.
- `conflicts` counts only the flagged direct children (`background/background.js:424-427`), not all flagged descendants.

## Model

| member | source | states |
|---|---|---|
| Folders.AccessorDefaults | background/background.js:296-308 | the name is the folder's name when it is truthy and `"<root>"` otherwise, so it is never empty. The type is `"user"` when the folder has no truthy type, and such a folder is neither special nor ignored. Otherwise the type is the folder's own |
| Folders.IgnoredIsSpecial | background/background.js:161-172 | every ignored type (`trash`, `junk`) is one of the special folder types, so an ignored folder is always special |
| Folders.IsSameEquivalence | background/background.js:363-365 | name equality of folders is reflexive, symmetric and transitive |
| Folders.FindSame | background/background.js:433 | `children.find(isSame)`: a found index is in range and its folder has the searched name |
| Folders.FindSameFirst | background/background.js:433 | the found folder is the first with that name, and nothing is found exactly when no folder has that name |
| Folders.RevPreorderIsPermutation | background/background.js:373-384 | the order in which `toArray` lists folders is a permutation of the pre-order listing |
| Folders.WalkListsDescendants | background/background.js:373-384 | `toArray` lists every descendant folder exactly once, as a multiset equal to the descendants, and never lists the folder itself |
| Folders.NotOwnDescendant | background/background.js:373-384 | no folder is among its own descendants |
| FolderNodes.MailFolderNode.constructor | background/background.js:285-289 | a new node carries the given folder, account and root flag and has no children |
| FolderNodes.MailFolderNode.Append | background/background.js:356-358 | `append` adds the child at the end of `children` and changes nothing else |
| FolderNodes.MailFolderNode.ToArray | background/background.js:373-384 | the list `toArray`'s stack loop builds is exactly `RevPreorder` of the sub-folders |
| FolderNodes.MailFolderNode.FromAccount | background/background.js:333-349 | the nodes created form a closed tree of fresh nodes, and that tree is exactly `Build` of the account's root folder |
| FolderNodes.BuildMirrors | background/background.js:333-349 | in the tree `fromAccount` builds, only the root has `isRoot`, and each node's children are its folder's sub-folders one-to-one and in order |
| FolderNodes.MirrorsIsBuild | background/background.js:333-349 | conversely, a tree whose children mirror the sub-folders and which has no inner root is the tree `fromAccount` builds |
| Conflicts.CountConflicts | background/background.js:424-427 | a report's `conflicts` is at most its number of children |
| Conflicts.CountConflictsZero | background/background.js:424-427 | `conflicts` is zero exactly when no direct child is flagged |
| Conflicts.MatchFound | background/background.js:431-434 | a child has a match exactly when there is a destination and one of the destination's children has the same name. A match is such a child of the matched destination parent, not a folder found anywhere else |
| Conflicts.EmitNamesVisible | background/background.js:413-430 | the names of the report nodes compare emits, each node before its children, are exactly the names of the non-root source folders with no ignored folder on their path, one per folder and in the walk's order (last sibling first) |
| Conflicts.OutlineIsUnmatched | background/background.js:419-429 | with the conflict information cleared, every comparison gives the same report as comparing with no destination: the report's shape depends only on the source tree |
| Conflicts.SiblingsReversed | background/background.js:431-435 | under a report parent, the children that are not ignored appear in the reverse of their listing order |
| Conflicts.ChildFlag | background/background.js:423-434 | a child that is neither ignored nor a root gets one report node with its name. That node is flagged exactly when the matched destination parent has a child of the same name. Its `conflicts` is the number of its flagged direct children |
| Conflicts.InboxWorkScenario | background/background.js:407-438 | a concrete comparison: an Inbox present at the destination is flagged. A Work folder with a Drafts child, both missing there, are not flagged. The root counts one conflict. Siblings are listed last-first |
| Conflicts.TrashScenario | background/background.js:417 | a trash folder is skipped together with everything below it, even a folder of a special type |
| ConflictWalk.MailFolderConflictInfo.constructor | background/background.js:228-232 | a new report carries the given name, type and special flag, is not flagged, counts no conflicts and has no children |
| ConflictWalk.MailFolderConflictInfo.FromMailFolderNode | background/background.js:239-241 | the report made from a node carries the node's name, type and `isSpecial`, and nothing else |
| Conflicts.FindNode | background/background.js:432-433 | the destination child found for a source child belongs to the destination node and has the same name |
| Conflicts.FindNodeMatches | background/background.js:432-433 | the node the walk finds is the node whose tree is `Match` of the trees |
| ConflictWalk.CompareNodes | background/background.js:407-438 | compare's stack walk builds a closed tree of fresh reports equal to `Compare` of the two trees |
| Transfer.LastRead | background/background.js:514 | the pager stops at the first page whose `id` is falsy: every page before it has a truthy id |
| Transfer.CopyOpsCopyAll | background/background.js:509-520 | the pages' message-copy operations copy every listed message id, in order, one operation per page. The count is the number of ids |
| Transfer.Merge | background/background.js:501-524 | merge issues exactly the copy operations of the pages up to and including the first page without an id, to the target's folder, and returns the sum of those pages' lengths |
| Transfer.MergeCopiesEveryPage | background/background.js:507-523 | at least one page is read. Every page read but the last has an id and the last has none. Each page read gets one copy, the first page's copy comes first even when it is empty, and the count is the number of messages copied |
| Transfer.CopiedOrMerged | background/background.js:454-461 | every folder transfer counts is either copied or merged, so the count is the number copied plus the number merged |
| Transfer.TransferFollowsCompare | background/background.js:451-466 | transfer copies whole, in order, exactly the folders compare reports unflagged directly under the root or under a flagged report, and merges, in order, exactly the folders compare flags at any depth. So no folder below a copied one is copied or merged, and `folderCount` is the number of the two |
| Transfer.CopiesFollowCompare | background/background.js:456-460 | the names of the folders copied whole are, in order, the names of the unflagged reports whose parent is the root or a flagged report. No report below an unflagged one names a copy |
| Transfer.MergesFollowCompare | background/background.js:461-466 | the names of the folders merged are, in order, the names of the reports compare flags, at any depth, each before its children |
| Transfer.UnmatchedNotFlagged | background/background.js:424-427 | with no destination nothing is flagged at any depth |
| Transfer.CoveredNoCopies | background/background.js:446-469 | when every folder has a counterpart below the matched parent, transfer copies no folder and merges, in the walk's order, exactly the non-root folders outside ignored subtrees |
| Transfer.IdenticalCovers | background/background.js:463-465 | a tree whose sibling names are distinct has a counterpart for every folder in itself |
| Transfer.SelfMatch | background/background.js:464 | against itself, each child is matched with itself when sibling names are distinct |
| Transfer.IdenticalTransfer | background/background.js:446-469 | transferring a tree onto an identical tree with distinct sibling names copies no folder, merges every non-root folder outside ignored subtrees in the walk's order, and `folderCount` is their number |
| Transfer.NamesMatch | background/background.js:464 | against a tree with the same names at every position and distinct sibling names, each child is matched with the child at its own position |
| Transfer.NamesCover | background/background.js:463-465 | a tree has a counterpart for every folder in any tree with the same names whose sibling names are distinct |
| Transfer.SameNamesTransfer | background/background.js:446-469 | transferring onto a tree with the same names, for example in another account, whose sibling names are distinct, copies no folder, merges every non-root folder outside ignored subtrees in the walk's order, and `folderCount` is their number |
| Transfer.TransferInboxWorkScenario | background/background.js:446-469 | a concrete transfer: with Inbox at both ends and Work, holding Drafts, only at the source, Work is copied whole into the destination root, Drafts is never visited, Inbox is merged, and two folders are counted |
| Transfer.IgnoredUntouched | background/background.js:453 | an ignored folder produces nothing, and no copy or merge ever concerns an ignored folder |
| Transfer.Copy | background/background.js:481-491 | copy asks the host to copy the folder into the target's account when the target is the root and into the target's folder otherwise. It returns a new non-root node for the host's new folder in the target's account |
| Transfer.PushKids | background/background.js:463-466 | the children are pushed in order, each with the destination child of the same name (or none) and the merged destination as parent |
| Transfer.Visit | background/background.js:452-466 | one turn of the loop keeps the walk invariant, shrinks the remaining work and adds exactly the counts and operations of the events it handled |
| Transfer.Start | background/background.js:447-449 | the initial stack `[this, target, target]` stands for the whole of `TransferOf` |
| Transfer.Transfer | background/background.js:446-469 | `folderCount`, `messageCount` and the folder copies and message copies issued are exactly those of `TransferOf` for the two trees |
| MessageFilters.FilterList.InsertAt | api/MessageFilters/implementation.js:77 | inserting at a position keeps the filters before it and shifts the rest after the new one |
| MessageFilters.TermStrings | api/MessageFilters/implementation.js:42-44 | the search terms are mapped element-wise to their text, in order |
| MessageFilters.Refs | api/MessageFilters/implementation.js:36-45 | one reference per filter, in index order, each with the filter's name, description and terms |
| MessageFilters.GetForAccount | api/MessageFilters/implementation.js:24-50 | no references when the account, its incoming server or its filter list is missing. Otherwise one reference per filter, in index order |
| MessageFilters.Copy | api/MessageFilters/implementation.js:57-85 | when either list is missing, returns 0 and leaves the destination unchanged. Otherwise the destination becomes its old filters followed by the source filters in source order, and the result is the source count. A distinct source list is not modified |
| MessageFilters.AliasedAfter | api/MessageFilters/implementation.js:75-79 | copy's loop as written on one shared list grows the list by one filter per turn |
| MessageFilters.AliasedCopyNeverEnds | api/MessageFilters/implementation.js:75-79 | on one shared non-empty list, the guard `copied < filterCount` still holds after any number of turns, so the loop never ends. The list becomes the old filters repeated |
| FilterCompare.IsSameEquivalence | background/background.js:57-62 | filter `isSame` is reflexive, symmetric and transitive |
| FilterCompare.JoinNotInjective | background/background.js:57-62 | because the terms are compared joined, filters whose term lists differ (`["a,b"]` and `["a", "b"]`, `[""]` and `[]`) are still the same |
| FilterCompare.Find | background/background.js:77 | `find` returns a destination filter that isSame, and returns none exactly when no destination filter isSame |
| FilterCompare.Execute | background/background.js:76-80 | the result has the same length and order as the source filters, and each is marked in conflict exactly when some destination filter isSame |
| FilterCompare.ExecuteSelf | background/background.js:76-80 | compared with its own list, every filter is in conflict |
| FilterCompare.ExecuteSymmetric | background/background.js:57-80 | some source filter conflicts with the destination exactly when some destination filter would conflict with the source |
| FilterCompare.CompareFilters | background/background.js:71-81 | the command returns the source account's filter references in order, each marked in conflict exactly when the destination account has a filter that isSame. An account without a filter list has no filters |

## Left out

- `TACBackend.main`, command dispatch, tab handling and `TACBCommand.send` (`background/background.js:9-30`, `527-581`): these are messaging and extension plumbing. The UI under `content/` and `pages/` is left out too.
- Asynchrony: every `await` is modelled as a sequential call. The `console.error` debug output is dropped.
- `count` (`background/background.js:389-394`) is the oracle `Host.total`. `messenger.folders.copy` is the oracle `Host.copyFolder`.
- The listing pages of a folder are a fixed sequence per folder (`Host.pages`). `continueList` is taken to hand out the next page of that sequence, because the cursor id is opaque.
- Transfer.Merge: the `getFolderInfo` result on `background/background.js:506` is unused, so it is not modelled.
- Transfer.Merge: the listing must end (some page has no id), because a host whose listing never ends would make the loop run forever.
- Transfer.Transfer: requires that no node below the top is a root, as `fromAccount` builds trees (FolderNodes.BuildMirrors). An inner root with no match would make the source dereference a missing destination.
- Transfer.Transfer: a folder is a value (name, type, sub-folders) with no host identity such as its account and path. The oracles `Host.total`, `Host.pages` and `Host.copyFolder` therefore cannot tell apart folders with equal values: two source folders `A/Notes` and `B/Notes` with equal sub-folders get the same message total and pages. A `CopyMessages` operation in the trace names the target by value, so it does not say which of two equal folders received the messages.
- Transfer.Merge: for the same reason, the pages listed for a folder and the target of its message copies are determined by the folder's value, not by its identity in the host.
- Transfer.Transfer: host calls are assumed to succeed. In the code a rejected `await` (`background/background.js:390`, `485`, `507-519`) aborts the walk, and the operations already issued stay done; the model has no failing call.
- Transfer.Merge: host calls are assumed to succeed. A rejected `getFolderInfo`, `list`, `continueList` or `copy` (`background/background.js:506-519`) aborts the merge after the pages already copied.
- MessageFilters.GetForAccount: `getAccount` and `getFilterList` are assumed not to throw; a missing account, server or list is modelled, a failing host call is not. The same holds for MessageFilters.Copy.
- Transfer.IdenticalTransfer: requires distinct sibling names. With two siblings of the same name, both match the first destination folder of that name.
- `CopyMsgFilters.execute` (`background/background.js:99-114`) only calls `copy`; the destination filter lists it fetches are unused.
- The host filter objects are reduced to what is read: name, description and the text of each search term.
- MessageFilters.Copy: models the loop with the source count read once before it (see Findings). On distinct lists this is the behaviour of the code as written.

## Findings

| source | as written | input that shows it | evidently intended | confidence | as-written member | corrected member |
|---|---|---|---|---|---|---|
| api/MessageFilters/implementation.js:75-79 | the loop re-reads `srcList.filterCount` on every turn while inserting into `destList` | `copy(k, k)` for an account `k` with at least one filter, or two accounts whose servers share one filter list. The inserts grow the very list being read, so `copied < filterCount` never fails | copy the filters present when the copy starts, once each: the list becomes its old filters followed by the same filters again | medium (whether the host hands out one list object for both keys is outside the model); not executed | MessageFilters.AliasedCopyNeverEnds | MessageFilters.Copy |
