# A verified model of the LMDB core in lmdbjni

lmdbjni bundles LMDB, a copy-on-write B+tree in a memory-mapped file with one writer and many readers that take no
locks, and wraps it for Java.  This project models the parts of `mdb.c` and `midl.c` that decide whether the store is
correct, and the Java iterator that users see, and proves what they are for: snapshot isolation, crash recovery, a tree
that behaves as an ordered map, pages that are never lost or used twice, and nested transactions that can be undone.

`dafny verify dfyconfig.toml` checks everything.  The files fall into five groups.

| group | files | what is proved |
|---|---|---|
| Transactions | `Mvcc` | one writer, readers and crashes as a state machine; safety of every run |
| Tree | `Tree`, `Paths`, `Search`, `Update`, `Reshape`, `BTree`, `Contents`, `CopyOnWrite`, `Touch`, `Split`, `Halving`, `Grow`, `Shrink`, `Leaves`, `Rooms`, `Tables`, `Failures` | get, put and delete refine a map; pages are conserved and clean pages never written |
| Cursors | `Cursors`, `EntryIterator`, `Tracked` | motion and search along the entries, iteration, cursors under insertion and deletion |
| Pages | `Common`, `PageNumbers`, `IdSort`, `IdList`, `Allocator`, `FreelistSave`, `Accounts`, `Compact`, `Drop`, `SlottedPage`, `Layout` | lists of page numbers, allocation, the freelist, the audit equation, compacting copy, drop, page layout and its size formulas |
| Nesting | `PageView`, `DirtyList`, `SpillList`, `NestedTxn` | what nested transactions read, commit and abort |

Objects that the source updates in place are classes or arrays: `Cursors.Cursor`, `EntryIterators.EntryIterator`,
`Tables.Table`, `Allocators.Allocator`, `FreelistSave.Saver`, `SlottedPages.SlottedPage`, `NestedTxns.TxnLists` and the
ID lists.  The protocol between threads (`Mvcc`) and the life of nested transactions (`PageViews`) are state machines.

## How the results fit together

- `Mvcc` works on page numbers.  Its writer may write only pages that no live snapshot contains; `Mvcc.RunInv` shows
  that the bound computed by `mdb_find_oldest` makes that safe for every interleaving, although a reader may copy its
  roots from different commits and the bound itself can go down (`Mvcc.OldestGoesBack`).
- The tree operations draw pages by `CopyOnWrite.AllocRun`, which leaves open which reusable run is taken.
  `Allocators.Allocator.AllocPages` is the search that the code does, and its contract says that it is one of those
  choices (`CopyOnWrite.Supplied`).
- `Accounts.SaveFreelist` takes an allocator at any point of a transaction through `mdb_freelist_save`.  What it leaves
  satisfies the equation that `mdb_audit` checks (`Accounts.Audit`), and that equation is why the root number which
  `mdb_env_copyfd1` writes down before it copies anything turns out right (`Accounts.CopyCommitted`).
- `NestedTxns` has the arrays of `mdb_txn_commit` and `mdb_page_get`; `PageViews` has their meaning.
  `NestedTxns.CommitThenGet` joins the two.

## Findings

Four things that the code is meant to do do not always hold.  The model keeps the code as it is; each has a concrete
input and the condition under which it does hold.

- **A put or delete can fail with MDB_PAGE_FULL in the middle of the tree.**  For a page of 20 or more nodes and a small
  new node that is not the last, `mdb_page_split` halves the page without looking at sizes (mdb.c:8485), and a half may
  not take its nodes.  `Failures.PutCanFail` and `Failures.DelCanFail` are whole databases with pages of 4096 bytes on
  which it happens, to a put into a leaf and to a delete that gives the root a longer separator.  The exact condition is
  on the sizes of the nodes along the way to the key: `Tables.Table.Put` succeeds if and only if the database has room
  (`HasRoom`), `Del` if and only if it lets the key go (`LetsGo`).  Both come down to pages that can be cut
  (`Halving.Cuttable`), for which `Split.HalvingFitsIff` has the arithmetic.  A tree without a page of 20 nodes has room
  for everything, and every tree has room for a key above all others.
- **A stalled reader can mix two commits.**  A reader copies the two roots and then the page bound from a meta page, and
  commits can write that page in between: `Mvcc.StalledReaderMixesCommits` is such a run.
  `Mvcc.ReaderGetsAnnouncedCommit` shows that each of the three is from the announced commit exactly if fewer than two
  later commits had written their meta page when it was copied, and that all are from one commit exactly if the first and
  the last copy fall into the same turn of the meta page.  Reading stays safe: each root leads to an intact tree
  (`Mvcc.ReaderIsolation`), and the bound covers both of them (`Mvcc.BoundCovers`).
- **A failed MDB_SET can leave C_EOF behind.**  If the page the cursor is on is enough to tell that the key is not there,
  the flag keeps its old value, and the next MDB_NEXT finds nothing although there are entries: `Cursors.StaleEof`.
  `Cursors.Cursor.Set` gives the flag after every call in terms of the state before it.
- **Sorting a very long ID list overflows.**  `mdb_midl_sort` computes a midpoint as `(l+ir) >> 1` in `int`.
  `IdSort.SafeLengths` shows that no segment can overflow exactly in lists of up to 2^30 + 3 IDs; `IdSort.Sort` sorts all
  of those, and always overflows for 2^31 - 1.

## Assumptions

- Keys are compared through a rank in the reals.  Any total order on byte strings, being countable, is such a ranking;
  key sizes are kept beside it.
- A page leaves at least `Tables.MIN_PMAX` bytes for nodes and keys have at most 511 bytes, as in the default build, so
  that four branch nodes fit on a page.
- Memory is sequentially consistent, a meta page is written atomically, and a reader copies one root at a time and then
  the page bound (`Mvcc`).  A crash can come between any two steps and leaves anything at all in every page written since
  the last sync.
- The nested puts of `mdb_freelist_save` are given as a finite list of effects, each of which moves pages between the
  trees and the lists without losing any (`FreelistSave.Conserved`).
- The counters md_branch_pages, md_leaf_pages and md_overflow_pages equal the numbers of pages in the trees (`Accounts`).
- `mdb_midl_sort` is called on lists of at most `IdSort.SAFE_LENGTH` IDs; the members that sort state it.

## Model

| member | source | states |
|---|---|---|
| `Mvcc.RunInv` | lmdbjni/src/main/native-package/src/mdb.c:2032-2254 | At every point of every run of readers, writer and crashes the invariant holds: each commit someone may still read is intact in memory and on disk, each freelist record is sound, each reader holds a commit the writer will not overwrite |
| `Mvcc.NextInv` | lmdbjni/src/main/native-package/src/mdb.c:2617-2746 | Every step keeps that invariant: registering and copying a meta page, scanning the reader table, reclaiming records, writing, syncing and publishing pages, aborting and crashing |
| `Mvcc.ReaderIsolation` | lmdbjni/src/main/native-package/src/lmdb.h:102-104 | Root number r that an active reader copied is root number r of the commit it is from; every page of that commit is in memory as it was committed, and whatever path the reader follows it reads the pages of that commit, at every point of every run |
| `Mvcc.RepeatableRead` | lmdbjni/src/main/native-package/src/mdb.c:2617-2746 | Reading the same path twice within one read transaction gives the same page |
| `Mvcc.ReaderBegins` | lmdbjni/src/main/native-package/src/mdb.c:2681-2722 | At every point of every run a reader with a slot can begin without a step of anyone else, and then holds both roots and the page bound of the last published commit |
| `Mvcc.WriterCommits` | lmdbjni/src/main/native-package/src/mdb.c:3555-3571 | At every point of every run without a writer one can begin and commit a new page over any pages of the last commit, which it shares, whatever readers do; the page is in the file, synced, and this is the last published commit |
| `Mvcc.ScanExact` | lmdbjni/src/main/native-package/src/mdb.c:2034-2048 | Without steps of others mdb_find_oldest returns the least of the last commit and the transaction numbers in the slots in use |
| `Mvcc.PageReusable` | lmdbjni/src/main/native-package/src/mdb.c:2151-2235 | At every point of every run the writer can get any page of a freelist record that is older than the last commit and than every reader, without the file growing |
| `Mvcc.ReaderGetsAnnouncedCommit` | lmdbjni/src/main/native-package/src/mdb.c:2681-2722 | Each root and the page bound are from the announced commit if and only if fewer than two later commits had written their meta page when it was copied; all are from one commit if and only if the first and the last copy were made in the same turn of the meta page |
| `Mvcc.StalledReaderMixesCommits` | lmdbjni/src/main/native-package/src/mdb.c:2718-2722 | A run in which a reader has both roots of one commit and the page bound of another, with exactly two commits in between |
| `Mvcc.BoundCovers` | lmdbjni/src/main/native-package/src/mdb.c:5245-5252 | Mixed or not, the page bound of a reader is above every page of the trees its roots lead to, so that mdb_page_get refuses none of them |
| `Mvcc.OldestGoesBack` | lmdbjni/src/main/native-package/src/mdb.c:2681-2683 | A run in which mdb_find_oldest returns less than it did before, because a reader stores a transaction number late |
| `Mvcc.WriterNeverTouchesLiveTree` | lmdbjni/src/main/native-package/src/mdb.c:2032-2048 | A page that write transaction N may write, or hand out, is in no tree that a reader holds nor in those of commits N-1 and N-2 |
| `Mvcc.CrashRecovers` | lmdbjni/src/main/native-package/src/mdb.c:3736-3851 | After a crash at any step the newer meta page leads to an intact tree: the last published commit, or the next one if its meta page was written |
| `Mvcc.CrashTears` | lmdbjni/src/main/native-package/src/mdb.c:3567-3571 | The crashes meant are the worst ones: from every state there is one that leaves any contents at all in the pages written since the last sync |
| `Mvcc.HistoryStable` | lmdbjni/src/main/native-package/src/mdb.c:3567-3571 | No step rewrites the record of a commit that somebody may still read |
| `Paths.NeighbourCorrect` | lmdbjni/src/main/native-package/src/mdb.c:5577-5623 | Going up and down again reaches the page next to a given one among all pages of its level, and finds none only at the end of the level |
| `Search.EntriesSorted` | lmdbjni/src/main/native-package/src/mdb.c:5061-5149 | Separators that bound the subtrees on both sides make the entries of the whole tree sorted and within the bounds |
| `Search.RoutedWithin` | lmdbjni/src/main/native-package/src/mdb.c:5265-5328 | A search for a key ends on a page if and only if the key lies within the bounds that the separators above give the page |
| `Search.LowerBoundGlobal` | lmdbjni/src/main/native-package/src/mdb.c:5061-5149 | The lower bound found on the leaf a key is routed to is its lower bound among all entries |
| `Cursors.LeafSearch` | lmdbjni/src/main/native-package/src/mdb.c:5061-5149 | Binary search on a leaf returns the lower bound, and exact if and only if the key is there |
| `Cursors.BranchSearch` | lmdbjni/src/main/native-package/src/mdb.c:5265-5328 | Binary search on a branch page, which never looks at slot 0, returns the child whose separators enclose the key |
| `Cursors.Cursor.PageSearch` | lmdbjni/src/main/native-package/src/mdb.c:5364-5437 | The descent reaches the leaf of a key, or the first or last leaf; on an empty database nothing changes |
| `Cursors.Cursor.Sibling` | lmdbjni/src/main/native-package/src/mdb.c:5577-5623 | The stack moves to the neighbouring page of the level, or is unchanged if there is none |
| `Cursors.Cursor.MoveNext` | lmdbjni/src/main/native-package/src/mdb.c:5627-5704 | Returns the entry after the current one in the order of the whole tree, or the current one after a deletion; at the end it sets C_EOF and moves nowhere |
| `Cursors.Cursor.MovePrev` | lmdbjni/src/main/native-package/src/mdb.c:5708-5782 | Returns the entry before the current one in the order of the whole tree; at the beginning nothing changes |
| `Cursors.Cursor.MoveFirst` | lmdbjni/src/main/native-package/src/mdb.c:5985-6025 | Stands on the first of all entries |
| `Cursors.Cursor.MoveLast` | lmdbjni/src/main/native-package/src/mdb.c:6029-6071 | Stands on the last of all entries, with C_EOF set |
| `Cursors.Cursor.GetNext` | lmdbjni/src/main/native-package/src/mdb.c:6178-6242 | MDB_NEXT as the user calls it: a cursor that is nowhere starts at the first entry, and the mark of a deletion is used up |
| `Cursors.Cursor.Shortcut` | lmdbjni/src/main/native-package/src/mdb.c:5800-5888 | The test whether the current page is enough decides only what a full search would give, and says exactly when it is not |
| `Cursors.Cursor.Set` | lmdbjni/src/main/native-package/src/mdb.c:5786-5981 | MDB_SET and MDB_SET_RANGE have the result and the stack of a full search from the root, wherever the cursor stood; C_EOF afterwards in terms of the state before |
| `Cursors.SetOutcomeUnique` | lmdbjni/src/main/native-package/src/mdb.c:5786-5981 | A full search has one outcome only, so the shortcut and the descent agree |
| `Cursors.SetOutcomeMeaning` | lmdbjni/src/main/native-package/src/mdb.c:5786-5981 | What that outcome is among all entries: the key itself, or for a range the first entry not below it, or nothing if there is none |
| `Cursors.StaleEof` | lmdbjni/src/main/native-package/src/mdb.c:5867-5888 | After MDB_LAST and a failed MDB_SET the cursor stands on the first of two entries and MDB_NEXT finds nothing |
| `EntryIterators.EntryIterator.constructor` | lmdbjni/src/main/java/org/fusesource/lmdbjni/EntryIterator.java:25-36 | The entries to come are all those from the key on in the direction of travel |
| `EntryIterators.EntryIterator.HasNext` | lmdbjni/src/main/java/org/fusesource/lmdbjni/EntryIterator.java:38-48 | Answers whether entries are left and can be called any number of times without losing one; it throws exactly for an empty key, before the first entry |
| `EntryIterators.EntryIterator.TryToComputeNext` | lmdbjni/src/main/java/org/fusesource/lmdbjni/EntryIterator.java:50-79 | Fetches the next entry without losing any, or ends the iteration |
| `EntryIterators.EntryIterator.GetNext` | lmdbjni/src/main/java/org/fusesource/lmdbjni/EntryIterator.java:81-90 | Returns the first of the entries left and leaves the others; NoSuchElementException exactly if there are none |
| `EntryIterators.Drain` | lmdbjni/src/main/java/org/fusesource/lmdbjni/EntryIterator.java:38-90 | A whole iteration returns exactly the entries to come, in order, and is then over |
| `Tracked.InsertTracked` | lmdbjni/src/main/native-package/src/mdb.c:6672-6708 | Where the leaf has room for the node, inserting at one cursor puts the entry in its place and leaves every other cursor of the database on the entry it was on |
| `Tracked.DeleteTracked` | lmdbjni/src/main/native-package/src/mdb.c:8187-8242 | Deleting at one cursor leaves cursors on other entries on them; those on the deleted entry stand before its old successor, on whichever page that is |
| `Tracked.DeleteThenNext` | lmdbjni/src/main/native-package/src/mdb.c:5661-5673 | The next MDB_NEXT of such a cursor returns the old successor, unless C_EOF was left on the cursor |
| `Tracked.DeleteThenRest` | lmdbjni/src/main/native-package/src/mdb.c:6238-6239 | Moved on to the end, such a cursor returns just the entries that followed the deleted one |
| `Split.SplitPoint` | lmdbjni/src/main/native-package/src/mdb.c:8485-8515 | Where the cut is searched for both parts fit, on leaf and branch pages; otherwise it is the middle; in every case it is the index that a definition without loops gives |
| `Split.SearchForward` | lmdbjni/src/main/native-package/src/mdb.c:8488-8514 | Adding up nodes from the left stops at a cut both of whose parts fit |
| `Split.SearchBackward` | lmdbjni/src/main/native-package/src/mdb.c:8491-8514 | So does adding up nodes from the right |
| `Split.HalvingFitsIff` | lmdbjni/src/main/native-package/src/mdb.c:8485-8625 | A cut that is not searched for works if and only if the new node fits into what its half leaves free |
| `Split.HalvingCanFail` | lmdbjni/src/main/native-package/src/mdb.c:8485-8625 | A full leaf of 4096 bytes on which halving fails |
| `Split.HalvingCanFailOnBranch` | lmdbjni/src/main/native-package/src/mdb.c:8485-8625 | A full branch page of 4096 bytes on which halving fails |
| `Split.HalvingCanFailOnSeparator` | lmdbjni/src/main/native-package/src/mdb.c:7526-7535 | A branch page of 4096 bytes on which halving fails for a separator that takes the place of a shorter one |
| `Split.MoveNodes` | lmdbjni/src/main/native-package/src/mdb.c:8580-8633 | Moving the nodes one by one succeeds if and only if both parts fit, and then they are the two parts in order |
| `Grow.SplitPage` | lmdbjni/src/main/native-package/src/mdb.c:8442-8633 | One page becomes two good pages with the same entries in order and a separator between them; it fails exactly if the cut is not searched for and a half does not fit |
| `Grow.SplitUp` | lmdbjni/src/main/native-package/src/mdb.c:8322-8737 | The cut is carried up as far as pages run full, up to a new root: a good tree with the same entries, every page accounted for, no clean page written; it succeeds if and only if every page that has to be cut can be |
| `Rooms.LargeNodeAccepted` | lmdbjni/src/main/native-package/src/mdb.c:8485-8515 | A new node of more than a sixteenth of a page is always accepted on its leaf: it fits, or the leaf can be cut |
| `Halving.GuardedSplits` | lmdbjni/src/main/native-package/src/mdb.c:8485-8515 | Where pages have fewer than 20 nodes or are split at their end nothing fails, on any level |
| `Shrink.MergePages` | lmdbjni/src/main/native-package/src/mdb.c:7820-7959 | Where mdb_rebalance merges there is room, and the result holds the entries of both pages in order |
| `Shrink.MoveNode` | lmdbjni/src/main/native-package/src/mdb.c:7583-7809 | A node that goes over from a neighbour leaves two good pages with the same entries and a separator that bounds both |
| `Shrink.Rebalance` | lmdbjni/src/main/native-package/src/mdb.c:7990-8170 | A leaf with a quarter of the page in use is left as it is; any other page with too little in it is settled, up to the root: a good tree, or none, with the same entries, every page accounted for; it succeeds if and only if the separator of a move can be taken by the pages above |
| `Shrink.QuarterFull` | lmdbjni/src/main/native-package/src/mdb.c:7995-8015 | A leaf with nodes is above the fill threshold if and only if at least a quarter of its bytes are in use, and it can spare a node if and only if it also has another |
| `Shrink.RebalanceRoot` | lmdbjni/src/main/native-package/src/mdb.c:8023-8095 | An empty root is dropped, a root with one child gives way to it, with the same entries |
| `CopyOnWrite.AllocPage` | lmdbjni/src/main/native-package/src/mdb.c:2109-2118 | One page: a loose one first, otherwise a reusable or a new one; the accounts stay balanced |
| `CopyOnWrite.TouchPage` | lmdbjni/src/main/native-package/src/mdb.c:2347-2447 | A clean page gets a number of its own and the old one is freed; a dirty page is left alone |
| `Touch.TouchPath` | lmdbjni/src/main/native-package/src/mdb.c:6249-6272 | Every page from the root to a leaf becomes writable, with the same entries, nothing else touched and every page accounted for |
| `Leaves.StoreLeaf` | lmdbjni/src/main/native-package/src/mdb.c:6672-6709 | A changed leaf is put in its place, or split: the entries of the tree are those with the new leaf in it; it succeeds if and only if the leaf fits or can be split |
| `Tables.Table.constructor` | lmdbjni/src/main/native-package/src/mdb.c:2766-2864 | A write transaction begins with the tree as it is and nothing written |
| `Tables.Table.Get` | lmdbjni/src/main/native-package/src/mdb.c:5548-5566 | Finds a key if and only if the map has it, with its data |
| `Tables.Table.Put` | lmdbjni/src/main/native-package/src/mdb.c:8740-8762 | The map gets the binding; each error exactly in its case, with the contents as they were; overflow runs of the tree have room for their data; MDB_PAGE_FULL if and only if the sizes along the way leave no room, which takes a page of 20 nodes and a key that is not above all others |
| `Tables.AddNode` | lmdbjni/src/main/native-package/src/mdb.c:7061-7071 | Data stays on the leaf if and only if the node then takes at most half of a page; otherwise it gets the smallest run of pages that holds it behind a page header, drawn as any allocation |
| `Rooms.OverflowFits` | lmdbjni/src/main/native-package/src/mdb.c:842 | The number of overflow pages is enough for the data and the header of the first page, and one page less would not be |
| `Tables.Table.Del` | lmdbjni/src/main/native-package/src/mdb.c:8251-8309 | The map loses the binding; each error exactly in its case; MDB_PAGE_FULL if and only if the sizes along the way do not let the key go, which takes a page of 20 nodes |
| `Rooms.SameSplits` | lmdbjni/src/main/native-package/src/mdb.c:2347-2447 | Touching pages changes nothing about whether there is room |
| `Rooms.NarrowSettles` | lmdbjni/src/main/native-package/src/mdb.c:7990-8170 | A tree without a page of 20 nodes lets every key go |
| `Failures.PutCanFail` | lmdbjni/src/main/native-package/src/mdb.c:8740-8762 | A put into a database of one leaf that gives MDB_PAGE_FULL |
| `Failures.DelCanFail` | lmdbjni/src/main/native-package/src/mdb.c:8251-8309 | A delete from a database of 21 leaves that gives MDB_PAGE_FULL |
| `Tables.EveryPageOnce` | lmdbjni/src/main/native-package/src/mdb.c:2085-2254 | Throughout a transaction every page number is in exactly one place: the tree with its overflow pages, the reusable pages, the loose pages or the free list |
| `Tables.CleanPagesKept` | lmdbjni/src/main/native-package/src/mdb.c:2347-2447 | Every page of the tree is one of those from the beginning, with all below it unchanged, or has a number that was not in use then |
| `Tables.PoolIsFree` | lmdbjni/src/main/native-package/src/mdb.c:2085-2254 | No page in use at the beginning is ever handed out |
| `IdSort.Sort` | lmdbjni/src/main/native-package/src/midl.c:219-278 | Sorts in place, with every access of the list and of the 64-entry stack in bounds; it fails only at a segment whose midpoint overflows, which there is never up to 2^30 + 3 IDs and always for 2^31 - 1; a permutation in any case |
| `IdSort.SafeLengths` | lmdbjni/src/main/native-package/src/midl.c:243-244 | No segment of a list can overflow the midpoint if and only if the list has at most 2^30 + 3 IDs |
| `IdSort.Partition` | lmdbjni/src/main/native-package/src/midl.c:244-265 | The median of three, the scans without bounds tests and the swaps part a segment at the pivot |
| `IdSort.Scan` | lmdbjni/src/main/native-package/src/midl.c:258-260 | The two scans stop inside the segment |
| `IdLists.Search` | lmdbjni/src/main/native-package/src/midl.c:33-66 | Returns the position of an ID in a falling list, or where it would go |
| `IdLists.Xmerge` | lmdbjni/src/main/native-package/src/midl.c:200-212 | Merges two lists in place from the low end, also when both lie in one array; the result is falling and has exactly the IDs of both |
| `IdLists.AppendRange` | lmdbjni/src/main/native-package/src/midl.c:184-198 | A run of IDs is appended in falling order |
| `IdLists.AppendList` | lmdbjni/src/main/native-package/src/midl.c:170-182 | A list is appended to another |
| `IdLists.FindRun` | lmdbjni/src/main/native-package/src/mdb.c:2133-2145 | Finds the lowest run of consecutive pages, and finds none if and only if the list has none anywhere |
| `IdLists.RemoveRun` | lmdbjni/src/main/native-package/src/mdb.c:2237-2241 | Takes exactly that run out |
| `IdLists.InsertRun` | lmdbjni/src/main/native-package/src/mdb.c:5497-5505 | Puts a run in its place in a falling list |
| `Allocators.Allocator.constructor` | lmdbjni/src/main/native-package/src/mdb.c:2766-2864 | A transaction begins with every page accounted for |
| `Allocators.Allocator.AllocPages` | lmdbjni/src/main/native-package/src/mdb.c:2085-2254 | A run of pages that was free becomes used, and no other page changes its place. If me_pghead has a run it takes the lowest, without reading records or growing the file. Otherwise records older than the cached bound, or than what mdb_find_oldest now returns, are read. The file grows only if they hold no such run, or if for more than one page the search was given up after 60 records for each page. Errors exactly in their cases |
| `Allocators.Allocator.PageTouch` | lmdbjni/src/main/native-package/src/mdb.c:2347-2396 | A new number comes into use and the old one goes to the free list; it fails only if the dirty list or the file is full |
| `Allocators.Allocator.PageLoose` | lmdbjni/src/main/native-package/src/mdb.c:1788-1831 | A page of this transaction can be used again at once, another goes to the free list |
| `Allocators.Allocator.OvpageFree` | lmdbjni/src/main/native-package/src/mdb.c:5440-5513 | Overflow pages go back to me_pghead or to the free list, exactly as the code decides, and mt_dirty_room with them |
| `Allocators.ExactlyOnePlace` | lmdbjni/src/main/native-package/src/mdb.c:1632-1682 | Every page below mt_next_pgno is in exactly one place: a meta page, in use, a record not read yet, me_pghead, the loose pages or the free list |
| `FreelistSave.Saver.Save` | lmdbjni/src/main/native-package/src/mdb.c:3013-3199 | Whatever the nested puts do, on success the freeDB holds exactly the pages of all three lists, split into falling chunks under the keys reserved for them, newer records are untouched and every page is in exactly one place. It fails only if a nested operation is refused. Once nested operations leave the lists alone it ends well within 3 * me_pglast + 4 of them |
| `Accounts.SaveFreelist` | lmdbjni/src/main/native-package/src/mdb.c:3555-3565 | From any state of the allocator, saving leaves every page in a meta page, a tree or a record; it fails only if a nested operation is refused, and succeeds if they leave the lists alone |
| `Accounts.FreeCount` | lmdbjni/src/main/native-package/src/mdb.c:1640-1644 | The loop over the freeDB counts the pages its records hold |
| `Accounts.Audit` | lmdbjni/src/main/native-package/src/mdb.c:1632-1682 | Free pages, tree pages and meta pages add up to mt_next_pgno after saving |
| `Compact.Cwalk` | lmdbjni/src/main/native-package/src/mdb.c:8872-9026 | The copy of a tree is isomorphic to it, its pages are numbered in the order they are written, and its root is the last |
| `Compact.CopyCompact` | lmdbjni/src/main/native-package/src/mdb.c:9030-9141 | The root and last page that are written down beforehand are right if and only if the free pages were counted right |
| `Accounts.CopyCommitted` | lmdbjni/src/main/native-package/src/mdb.c:9090-9141 | After a commit they are right |
| `Drop.Drop0` | lmdbjni/src/main/native-package/src/mdb.c:9624-9706 | Frees every page of a tree, its overflow pages and its sub-databases exactly once, and no other |
| `PageViews.RunInv` | lmdbjni/src/main/native-package/src/mdb.c:2051-2068 | In every state of every run of nested transactions mt_dirty_room is exact on every level and no page is spilled twice |
| `PageViews.NextInv` | lmdbjni/src/main/native-package/src/mdb.c:1934-2029 | Every step keeps that: writing, allocating, touching, spilling, unspilling, freeing, beginning, committing, aborting |
| `PageViews.StepView` | lmdbjni/src/main/native-package/src/mdb.c:1934-2029 | After every step the innermost transaction reads every page as before, but for the page a write or an allocation gives a value and the pages of an abort; spilling, unspilling, beginning and committing change nothing it reads |
| `PageViews.ReadsLastWritten` | lmdbjni/src/main/native-package/src/mdb.c:5209-5259 | Through every run in which it is not freed and nothing is aborted, a page reads as it was last written, on whichever level that was, wherever it has been spilled to since |
| `PageViews.CommitView` | lmdbjni/src/main/native-package/src/mdb.c:3386-3515 | After the commit of a nested transaction its parent reads every page as the child did |
| `PageViews.MergedLength` | lmdbjni/src/main/native-package/src/mdb.c:3476-3478 | The length of the merged dirty list that the code takes from mt_dirty_room is right |
| `PageViews.AncestorsKept` | lmdbjni/src/main/native-package/src/mdb.c:5209-5259 | Whatever nested transactions do, an ancestor reads every page on its lists as before, and every other but those they allocated |
| `PageViews.AbortRestores` | lmdbjni/src/main/native-package/src/mdb.c:2915-2982 | From the beginning of a nested transaction to its abort: lists and room of the parent are restored, and its view of every page on its lists and of every other but those that aborted transactions allocated |
| `DirtyLists.Search2` | lmdbjni/src/main/native-package/src/midl.c:280-313 | Returns the position of an ID in a rising list, or where it would go |
| `DirtyLists.Insert2` | lmdbjni/src/main/native-package/src/midl.c:315-344 | An entry goes to its place, which keeps the list rising; duplicates and a full list exactly refused |
| `DirtyLists.MergeInPlace` | lmdbjni/src/main/native-package/src/mdb.c:3479-3489 | Merging from the high end in place gives the union in which the child has precedence, given the exact length |
| `DirtyLists.MergeLength` | lmdbjni/src/main/native-package/src/mdb.c:3461-3475 | Counts that length |
| `DirtyLists.MergeDirty` | lmdbjni/src/main/native-package/src/mdb.c:3461-3489 | The dirty list of the parent becomes the union, whichever way the length is found |
| `SpillLists.DropDirty` | lmdbjni/src/main/native-package/src/mdb.c:3421-3440 | Marking and squeezing in place takes exactly the dirty pages of the child off the spill list of the parent |
| `DirtyLists.Remove2` | lmdbjni/src/main/native-package/src/mdb.c:3449-3457 | Takes one entry out and keeps the others in order |
| `NestedTxns.PageGet` | lmdbjni/src/main/native-package/src/mdb.c:5209-5259 | Reads a page as the view of the chain of transactions has it, and says which transaction supplied it: the first that has it on a list |
| `NestedTxns.PageDirty` | lmdbjni/src/main/native-package/src/mdb.c:2051-2068 | A new page joins the dirty list and takes its room |
| `NestedTxns.Commit` | lmdbjni/src/main/native-package/src/mdb.c:3386-3515 | The lists of parent and child are merged in place to what the merge of their layers is |
| `NestedTxns.CommitInnermost` | lmdbjni/src/main/native-package/src/mdb.c:3386-3515 | The chain without its innermost transaction reads every page as before, whatever is in the file, and the room is exact again |
| `NestedTxns.CommitThenGet` | lmdbjni/src/main/native-package/src/mdb.c:3386-3515 | mdb_page_get in the child before the commit and in the parent after it both answer what the view of the chain before the commit has |
| `SlottedPages.SlottedPage.Add` | lmdbjni/src/main/native-package/src/mdb.c:7014-7134 | A node is laid out in the bytes of the page and gets its slot if and only if there is room; the other nodes keep their contents; otherwise nothing changes |
| `SlottedPages.SlottedPage.Del` | lmdbjni/src/main/native-package/src/mdb.c:7141-7191 | A node goes, the bytes of the others are moved together and their contents stay |
| `SlottedPages.SlottedPage.UpdateKey` | lmdbjni/src/main/native-package/src/mdb.c:7492-7559 | A key is exchanged for a shorter or longer one in place if and only if there is room; all else stays |
| `SlottedPages.AddThenDel` | lmdbjni/src/main/native-package/src/mdb.c:7141-7191 | Deleting a node just added restores the nodes, the offsets and the free space |
| `SlottedPages.NoHoles` | lmdbjni/src/main/native-package/src/mdb.c:7141-7191 | Every byte between the lowest node and the end of the page belongs to a node |
| `SlottedPages.OneOwner` | lmdbjni/src/main/native-package/src/mdb.c:7014-7134 | And to one only |
| `Layout.LeafRoom` | lmdbjni/src/main/native-package/src/mdb.c:7014-7134 | The bytes between the slots and the nodes of a leaf are those that the size formulas of the tree operations leave free |
| `Layout.BranchRoom` | lmdbjni/src/main/native-package/src/mdb.c:7014-7134 | So they are on a branch page, whose first key is stored empty |
| `Layout.LeafCellBytes` | lmdbjni/src/main/native-package/src/mdb.c:7055-7085 | On a leaf a node takes its data, or eight bytes if it is marked F_BIGDATA, and the size that the tree operations count with |
| `Layout.AddFits` | lmdbjni/src/main/native-package/src/mdb.c:7014-7134 | A node can be added to the bytes of a leaf if and only if the tree operations count it as fitting |

## Left out

- Operating system: files, maps, locks, signals, the lock file's layout, dead readers (mdb_reader_check), Windows.
- MDB_WRITEMAP, MDB_NOSYNC, MDB_NOMETASYNC, MDB_NOLOCK and MDB_NOTLS.
- Sorted duplicates: MDB_DUPSORT, MDB_DUPFIXED, LEAF2 pages, sub-pages and MDB_MULTIPLE; `Drop` and `Compact` follow sub-databases.
- MDB_RESERVE, MDB_CURRENT, MDB_APPENDDUP, comparison functions and named databases as such; they would add easy members.
- The writer thread and the buffers of mdb_env_copyfd1; `Compact` has the file they produce.
- Java: the wrappers, NativeBuffer, Transaction, Database and BufferCursor, which pass calls on.
- Page buffers in the tree operations: pages are values in a tree there, so that aliasing of page pointers is not captured; `SlottedPage` and the ID lists work on arrays.
- The cursor adjustments of mdb_page_split, mdb_node_move and mdb_page_merge; `Tracked` covers insertion and deletion that stay on one page.
- Allocation failure in the tree operations: MDB_MAP_FULL, MDB_TXN_FULL and ENOMEM end a transaction; `Allocators` has the first two.
- Spilling during tree operations; `PageViews` has it as a step.
- Tables.Table.Put: for a key that is there already the condition for MDB_PAGE_FULL is stated for a transaction that began with no page in two places (`Tables.Started`), because touching a page could otherwise make an overflow page look dirty.
- Tables.FreeOverflow: an overflow run is dirty as a whole, as mdb_page_alloc makes it; the choice between me_pghead and the free list is left open there and made in Allocators.Allocator.OvpageFree.
- Allocators.Allocator.AllocPages: after MDB_TXN_FULL and MDB_MAP_FULL the transaction is in error; the flag is kept in Tables only.
- FreelistSave.Saver.Save: the retry loop is proved to end once the nested operations leave the lists alone; that they do at some point is not proved, as it depends on the freeDB tree. The fill-in at the end is taken not to change the lists, because the records it writes are reserved, dirty and do not grow.
- Cursors.Cursor.Set: the test for an empty page in mdb_cursor_set, which cannot be met in a tree without empty leaves.
- Shrink.Rebalance: that a leaf with less than a quarter of the page in use never stays as it is; a move or merge can be followed by cuts further up, and the leaf level is not followed through those.
- IdSort.Sort: for lists between 2^30 + 4 and 2^31 - 2 IDs whether a midpoint overflows depends on the IDs; that every such segment is reached and stops the sort is not stated.
- Mvcc.RunInv: the tree operations of the writer are any change of the pages it owns that leaves a closed tree.
- NestedTxns.Commit: the records of database handles and cursors that a commit copies to the parent.
