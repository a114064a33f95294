/**
  * The Google Drive plugin's two ways of finding files: the full scan, which walks folders with a
  * queue that may hold the same folder several times, and the incremental path, which walks the
  * folders again with a different traversal and filters a change feed by parent folder.
  */
module DriveSync {
  import opened Wrappers

  type Id = string

  const FOLDER_MIME := "application/vnd.google-apps.folder"

  datatype File = File(id: Id, mime: string, parents: seq<Id>, trashed: bool)

  /** One answer to a paged request.  An error body ends the listing; a raise aborts it. */
  datatype Page = Page(files: seq<File>) | ErrorBody | Raises

  /** The remote side: the pages it answers to "files in folder k" and "folders in folder k". */
  datatype Server = Server(listing: map<Id, seq<Page>>, folderListing: map<Id, seq<Page>>)

  datatype Error = ListingRaised

  function PagesOf(pages: map<Id, seq<Page>>, fid: Id): seq<Page> {
    if fid in pages then pages[fid] else []
  }

  function IsFolder(f: File): bool {
    f.mime == FOLDER_MIME
  }

  // ---------------------------------------------------------------- reading one listing

  /** The files of a listing up to its first error body; an error if a page raises before that. */
  function Read(pages: seq<Page>): Result<seq<File>, Error> {
    if pages == [] || pages[0].ErrorBody? then Ok([])
    else if pages[0].Raises? then Err(ListingRaised)
    else Prepend(pages[0].files, Read(pages[1..]))
  }

  function Prepend(files: seq<File>, r: Result<seq<File>, Error>): (p: Result<seq<File>, Error>)
    ensures files == [] ==> p == r
  {
    if r.Err? then r else
      assert [] + r.value == r.value;
      Ok(files + r.value)
  }

  method ReadPages(pages: seq<Page>) returns (r: Result<seq<File>, Error>)
    ensures r == Read(pages)
  {
    var files: seq<File> := [];
    var i := 0;
    assert pages[0..] == pages;
    while i < |pages|
      invariant 0 <= i <= |pages|
      invariant Read(pages) == Prepend(files, Read(pages[i..]))
    {
      assert pages[i..][1..] == pages[i + 1..];
      match pages[i] {
        case Raises => return Err(ListingRaised);
        case ErrorBody =>
          assert files + [] == files;
          return Ok(files);
        case Page(more) =>
          assert forall rest: seq<File> :: (files + more) + rest == files + (more + rest);
          files := files + more;
      }
      i := i + 1;
    }
    assert files + [] == files;
    return Ok(files);
  }

  /** The ids of the folders among `files`, in order. */
  function FolderIds(files: seq<File>): (ids: seq<Id>)
    ensures forall x :: x in ids <==> exists f :: f in files && IsFolder(f) && f.id == x
  {
    if files == [] then []
    else
      var rest := FolderIds(files[1..]);
      assert forall f :: f in files <==> f == files[0] || f in files[1..];
      if IsFolder(files[0]) then
        assert files[0] in files;
        [files[0].id] + rest
      else rest
  }

  function Documents(files: seq<File>): (docs: seq<File>)
    ensures forall f :: f in docs <==> f in files && !IsFolder(f)
  {
    if files == [] then []
    else if IsFolder(files[0]) then Documents(files[1..])
    else [files[0]] + Documents(files[1..])
  }

  function Items(s: Server, fid: Id): seq<File> {
    var r := Read(PagesOf(s.listing, fid));
    if r.Ok? then r.value else []
  }

  predicate Lists(s: Server, fid: Id) {
    Read(PagesOf(s.listing, fid)).Ok?
  }

  function SubFolders(s: Server, fid: Id): seq<Id> {
    FolderIds(Items(s, fid))
  }

  /** What _list_direct_children keeps of the folder-only query: the non-empty ids. */
  function NonEmptyIds(files: seq<File>): (ids: seq<Id>)
    ensures forall x :: x in ids <==> x != "" && exists f :: f in files && f.id == x
  {
    if files == [] then []
    else
      var rest := NonEmptyIds(files[1..]);
      assert forall f :: f in files <==> f == files[0] || f in files[1..];
      if files[0].id != "" then
        assert files[0] in files;
        [files[0].id] + rest
      else rest
  }

  /** The direct children found by the incremental path; a folder it cannot list has none. */
  function ChildIds(s: Server, fid: Id): seq<Id> {
    var r := Read(PagesOf(s.folderListing, fid));
    if r.Ok? then NonEmptyIds(r.value) else []
  }

  // ---------------------------------------------------------------- what reading gives, page by page

  /** The length of the first n parts together: the place where the next part begins. */
  function Offset<T>(parts: seq<seq<T>>, n: nat): nat
    requires n <= |parts|
  {
    if n == 0 then 0 else Offset(parts, n - 1) + |parts[n - 1]|
  }

  /** The whole is the parts one after the other: part i stands at its offset, and there is no more. */
  ghost predicate Joins<T>(parts: seq<seq<T>>, whole: seq<T>) {
    && |whole| == Offset(parts, |parts|)
    && forall i :: 0 <= i < |parts| ==> StandsAt(parts, whole, i)
  }

  ghost predicate StandsAt<T>(parts: seq<seq<T>>, whole: seq<T>, i: nat)
    requires i < |parts|
  {
    var at := Offset(parts, i);
    at + |parts[i]| <= |whole| && whole[at..at + |parts[i]|] == parts[i]
  }

  lemma {:induction false} OffsetTail<T>(part: seq<T>, parts: seq<seq<T>>, n: nat)
    requires n <= |parts|
    ensures Offset([part] + parts, n + 1) == |part| + Offset(parts, n)
    decreases n
  {
    if n > 0 { OffsetTail(part, parts, n - 1); }
  }

  lemma OneMorePart<T>(part: seq<T>, parts: seq<seq<T>>, whole: seq<T>)
    requires Joins(parts, whole)
    ensures Joins([part] + parts, part + whole)
  {
    OffsetTail(part, parts, |parts|);
    forall i | 0 <= i < |[part] + parts| ensures StandsAt([part] + parts, part + whole, i) {
      if i > 0 { PartMoves(part, parts, whole, i - 1); }
    }
  }

  lemma PartMoves<T>(part: seq<T>, parts: seq<seq<T>>, whole: seq<T>, i: nat)
    requires i < |parts| && StandsAt(parts, whole, i)
    ensures StandsAt([part] + parts, part + whole, i + 1)
  {
    OffsetTail(part, parts, i);
    var at := Offset(parts, i);
    assert (part + whole)[|part| + at..|part| + at + |parts[i]|] == whole[at..at + |parts[i]|];
  }

  lemma {:induction false} JoinedMembers<T>(parts: seq<seq<T>>, whole: seq<T>, x: T)
    requires Joins(parts, whole)
    ensures x in whole <==> exists i :: 0 <= i < |parts| && x in parts[i]
  {
    if x in whole {
      var k :| 0 <= k < |whole| && whole[k] == x;
      var i, j := AtSomePart(parts, |parts|, k);
      assert StandsAt(parts, whole, i);
    }
    if i :| 0 <= i < |parts| && x in parts[i] {
      assert StandsAt(parts, whole, i);
    }
  }

  lemma {:induction false} AtSomePart<T>(parts: seq<seq<T>>, n: nat, k: nat) returns (i: nat, j: nat)
    requires n <= |parts| && k < Offset(parts, n)
    ensures i < n && j < |parts[i]| && k == Offset(parts, i) + j
    decreases n
  {
    if k >= Offset(parts, n - 1) {
      i, j := n - 1, k - Offset(parts, n - 1);
    } else {
      i, j := AtSomePart(parts, n - 1, k);
    }
  }

  /** The first n answers are pages, and the answer after them, if there is one, is none. */
  ghost predicate GoesOnFor(pages: seq<Page>, n: nat) {
    n <= |pages| && (forall i :: 0 <= i < n ==> pages[i].Page?) && (n < |pages| ==> !pages[n].Page?)
  }

  function FilesOf(page: Page): seq<File> {
    match page
    case Page(files) => files
    case _ => []
  }

  ghost function PageParts(pages: seq<Page>, n: nat): seq<seq<File>>
    requires n <= |pages|
  {
    seq(n, i requires 0 <= i < n => FilesOf(pages[i]))
  }

  /** Reading a listing that goes on for n pages fails exactly if the next answer raises; otherwise the
    * files are those of the n pages, each page at its place. */
  lemma {:induction false} ReadIs(pages: seq<Page>, n: nat)
    requires GoesOnFor(pages, n)
    ensures Read(pages).Err? <==> n < |pages| && pages[n].Raises?
    ensures Read(pages).Ok? ==> Joins(PageParts(pages, n), Read(pages).value)
    decreases n
  {
    if n > 0 {
      var tail := pages[1..];
      ReadIs(tail, n - 1);
      if Read(pages).Ok? {
        OneMorePart(pages[0].files, PageParts(tail, n - 1), Read(tail).value);
        assert PageParts(pages, n) == [pages[0].files] + PageParts(tail, n - 1);
      }
    }
  }

  lemma PagesGoOn(pages: seq<Page>) returns (n: nat)
    ensures GoesOnFor(pages, n)
  {
    n := 0;
    while n < |pages| && pages[n].Page?
      invariant n <= |pages| && forall i :: 0 <= i < n ==> pages[i].Page?
    {
      n := n + 1;
    }
  }

  /** The file is on a page with nothing but pages before it. */
  ghost predicate OnPage(pages: seq<Page>, f: File) {
    exists i: nat :: i < |pages| && (forall j :: 0 <= j <= i ==> pages[j].Page?) && f in FilesOf(pages[i])
  }

  /** A request raises with nothing but pages before it. */
  ghost predicate RaisesFirst(pages: seq<Page>) {
    exists i: nat :: GoesOnFor(pages, i) && i < |pages| && pages[i].Raises?
  }

  lemma ReadFails(pages: seq<Page>)
    ensures Read(pages).Err? <==> RaisesFirst(pages)
  {
    var n := PagesGoOn(pages);
    ReadIs(pages, n);
    if i: nat :| GoesOnFor(pages, i) && i < |pages| && pages[i].Raises? {
      assert i == n;
    }
  }

  lemma ReadMembers(pages: seq<Page>, f: File)
    requires Read(pages).Ok?
    ensures f in Read(pages).value <==> OnPage(pages, f)
  {
    var n := PagesGoOn(pages);
    ReadIs(pages, n);
    var parts := PageParts(pages, n);
    JoinedMembers(parts, Read(pages).value, f);
    hide Read, Joins;
    if i :| 0 <= i < |parts| && f in parts[i] {
      assert f in FilesOf(pages[i]);
    }
    if i: nat :| i < |pages| && (forall j :: 0 <= j <= i ==> pages[j].Page?) && f in FilesOf(pages[i]) {
      assert f in parts[i];
    }
  }

  /** What a folder's listing gives, in terms of the pages the server answers. */
  lemma ItemsAre(s: Server, fid: Id, f: File)
    ensures Lists(s, fid) <==> !(fid in s.listing && RaisesFirst(s.listing[fid]))
    ensures f in Items(s, fid) <==> Lists(s, fid) && fid in s.listing && OnPage(s.listing[fid], f)
  {
    if fid in s.listing {
      ReadFails(s.listing[fid]);
      if Lists(s, fid) { ReadMembers(s.listing[fid], f); }
    }
  }

  /** The same for the folder-only query: the non-empty ids of what its pages hold, or none if it raises. */
  lemma ChildIdsAre(s: Server, fid: Id, x: Id)
    ensures x in ChildIds(s, fid) <==>
            && x != "" && fid in s.folderListing && !RaisesFirst(s.folderListing[fid])
            && exists f :: OnPage(s.folderListing[fid], f) && f.id == x
  {
    if fid in s.folderListing {
      var pages := s.folderListing[fid];
      ReadFails(pages);
      if Read(pages).Ok? {
        forall f ensures f in Read(pages).value <==> OnPage(pages, f) { ReadMembers(pages, f); }
      }
    }
  }

  /** The selections of a list keep its order and its repetitions: each is decided file by file. */
  lemma {:induction false} DocumentsLaw(xs: seq<File>, ys: seq<File>)
    ensures Documents(xs + ys) == Documents(xs) + Documents(ys)
    decreases |xs|
  {
    if xs == [] {
      assert xs + ys == ys;
    } else {
      assert (xs + ys)[1..] == xs[1..] + ys && (xs + ys)[0] == xs[0];
      DocumentsLaw(xs[1..], ys);
      var rest, more := Documents(xs[1..]), Documents(ys);
      assert ([xs[0]] + rest) + more == [xs[0]] + (rest + more);
    }
  }

  lemma {:induction false} FolderIdsLaw(xs: seq<File>, ys: seq<File>)
    ensures FolderIds(xs + ys) == FolderIds(xs) + FolderIds(ys)
    decreases |xs|
  {
    if xs == [] {
      assert xs + ys == ys;
    } else {
      assert (xs + ys)[1..] == xs[1..] + ys && (xs + ys)[0] == xs[0];
      FolderIdsLaw(xs[1..], ys);
    }
  }

  lemma {:induction false} NonEmptyIdsLaw(xs: seq<File>, ys: seq<File>)
    ensures NonEmptyIds(xs + ys) == NonEmptyIds(xs) + NonEmptyIds(ys)
    decreases |xs|
  {
    if xs == [] {
      assert xs + ys == ys;
    } else {
      assert (xs + ys)[1..] == xs[1..] + ys && (xs + ys)[0] == xs[0];
      NonEmptyIdsLaw(xs[1..], ys);
    }
  }

  lemma SelectionOfOne(f: File)
    ensures Documents([f]) == if f.mime == "application/vnd.google-apps.folder" then [] else [f]
    ensures FolderIds([f]) == if f.mime == "application/vnd.google-apps.folder" then [f.id] else []
    ensures NonEmptyIds([f]) == if f.id == "" then [] else [f.id]
  {
    assert [f][1..] == [];
  }

  // ---------------------------------------------------------------- reachability

  /** A walk along `next` from x to y. */
  ghost predicate Walk(next: Id -> seq<Id>, x: Id, walk: seq<Id>, y: Id) {
    && |walk| > 0 && walk[0] == x && walk[|walk| - 1] == y
    && forall i :: 0 <= i < |walk| - 1 ==> walk[i + 1] in next(walk[i])
  }

  ghost predicate Reachable(next: Id -> seq<Id>, x: Id, y: Id) {
    exists walk :: Walk(next, x, walk, y)
  }

  lemma ReachSelf(next: Id -> seq<Id>, x: Id)
    ensures Reachable(next, x, x)
  {
    assert Walk(next, x, [x], x);
  }

  lemma ReachStep(next: Id -> seq<Id>, x: Id, y: Id, z: Id)
    requires Reachable(next, x, y) && z in next(y)
    ensures Reachable(next, x, z)
  {
    var walk :| Walk(next, x, walk, y);
    assert Walk(next, x, walk + [z], z);
  }

  /** A set that holds x and is closed under `next` holds everything reachable from x. */
  lemma {:induction false} ClosedHoldsReachable(next: Id -> seq<Id>, s: set<Id>, x: Id, walk: seq<Id>, y: Id)
    requires x in s && forall a, b :: a in s && b in next(a) ==> b in s
    requires Walk(next, x, walk, y)
    ensures y in s
    decreases |walk|
  {
    if |walk| > 1 {
      var shorter := walk[..|walk| - 1];
      ClosedHoldsReachable(next, s, x, shorter, shorter[|shorter| - 1]);
    }
  }

  /** The same graph under another name has the same walks. */
  lemma SameEdgesSameReach(next: Id -> seq<Id>, next': Id -> seq<Id>, x: Id, y: Id)
    requires forall a, b :: b in next(a) <==> b in next'(a)
    ensures Reachable(next, x, y) <==> Reachable(next', x, y)
  {
    forall walk ensures Walk(next, x, walk, y) <==> Walk(next', x, walk, y) {
    }
  }

  ghost function ScanGraph(s: Server): Id -> seq<Id> {
    (fid: Id) => SubFolders(s, fid)
  }

  ghost function FolderGraph(s: Server): Id -> seq<Id> {
    (fid: Id) => ChildIds(s, fid)
  }

  // ---------------------------------------------------------------- the full scan

  /** Every folder the scan can meet: finite, because listings are. */
  ghost function Universe(s: Server, root: Id): (all: set<Id>)
    ensures root in all
  {
    {root} + (set k, c | k in s.listing && c in SubFolders(s, k) :: c)
  }

  lemma ChildrenInUniverse(s: Server, root: Id, fid: Id)
    ensures forall c :: c in SubFolders(s, fid) ==> c in Universe(s, root)
  {
  }

  function DocumentsOf(s: Server, order: seq<Id>): seq<File> {
    if order == [] then []
    else DocumentsOf(s, order[..|order| - 1]) + Documents(Items(s, order[|order| - 1]))
  }

  lemma DocumentsOfAppend(s: Server, order: seq<Id>, fid: Id)
    ensures DocumentsOf(s, order + [fid]) == DocumentsOf(s, order) + Documents(Items(s, fid))
  {
    assert (order + [fid])[..|order|] == order;
  }

  lemma {:induction false} DocumentsOfMembers(s: Server, order: seq<Id>)
    ensures forall f :: f in DocumentsOf(s, order) <==>
                        exists fid :: fid in order && f in Documents(Items(s, fid))
    decreases |order|
  {
    if order != [] {
      var init, last := order[..|order| - 1], order[|order| - 1];
      DocumentsOfMembers(s, init);
      assert order == init + [last];
    }
  }

  /** Position of the first folder of the queue that has not been seen; the queue's length if
    * there is none.  Second component of the termination measure. */
  function FirstUnseen(queue: seq<Id>, seen: set<Id>): (p: nat)
    ensures p <= |queue|
    ensures forall i :: 0 <= i < p ==> queue[i] in seen
    ensures p < |queue| ==> queue[p] !in seen
  {
    if queue == [] || queue[0] !in seen then 0 else 1 + FirstUnseen(queue[1..], seen)
  }

  lemma FirstUnseenAfterPop(queue: seq<Id>, more: seq<Id>, seen: set<Id>)
    requires queue != [] && queue[0] in seen
    requires forall x :: x in more ==> x !in seen
    requires FirstUnseen(queue, seen) == |queue| ==> more == []
    ensures FirstUnseen(queue[1..] + more, seen) < FirstUnseen(queue, seen)
  {
    var p := FirstUnseen(queue, seen);
    var rest := queue[1..] + more;
    var p' := FirstUnseen(rest, seen);
    if p < |queue| {
      assert rest[p - 1] == queue[p];
      assert p' <= p - 1;
    }
  }

  /** The subfolders that the scan appends: those not seen yet, duplicates included. */
  function Unseen(subs: seq<Id>, seen: set<Id>): (r: seq<Id>)
    ensures forall x :: x in r <==> x in subs && x !in seen
  {
    if subs == [] then []
    else
      var rest := Unseen(subs[..|subs| - 1], seen);
      var x := subs[|subs| - 1];
      assert forall y :: y in subs <==> y in subs[..|subs| - 1] || y == x;
      if x in seen then rest else rest + [x]
  }

  /** The folders a scan covers: the reachable ones, or only the root when not recursive. */
  ghost predicate InScope(s: Server, root: Id, recursive: bool, x: Id) {
    if recursive then Reachable(ScanGraph(s), root, x) else x == root
  }

  /** What the scan promises: on success the files are those of the folders in `order`, which are
    * exactly the folders in scope, each of them listed without a raise; on failure some folder in
    * scope raises. */
  ghost predicate Scanned(s: Server, root: Id, recursive: bool, r: Result<seq<File>, Error>, order: seq<Id>) {
    match r
    case Ok(files) =>
      && files == DocumentsOf(s, order)
      && (forall x :: x in order <==> InScope(s, root, recursive, x))
      && (forall x :: x in order ==> Lists(s, x))
    case Err(_) => exists x :: InScope(s, root, recursive, x) && !Lists(s, x)
  }

  /** Loop invariant of the scan.  The root is in `seen` before it is listed, so that "seen" and
    * "listed" agree only after the first pop. */
  ghost predicate ScanInvariant(s: Server, root: Id, recursive: bool, queue: seq<Id>, seen: set<Id>, order: seq<Id>) {
    && (forall x :: x in queue || x in order ==> InScope(s, root, recursive, x))
    && (if order == [] then queue == [root] && seen <= {root}
        else root in order && forall x :: x in seen <==> x in order)
    && (forall x :: x in order ==> Lists(s, x))
    && (if recursive then
          forall x, c :: x in order && c in SubFolders(s, x) ==> c in order || c in queue
        else order != [] ==> queue == [])
  }

  lemma ScanStarts(s: Server, root: Id, recursive: bool, seen: set<Id>)
    requires seen <= {root}
    ensures ScanInvariant(s, root, recursive, [root], seen, [])
  {
    ReachSelf(ScanGraph(s), root);
  }

  lemma ScanStep(s: Server, root: Id, recursive: bool, queue: seq<Id>, seen: set<Id>, order: seq<Id>, more: seq<Id>)
    requires ScanInvariant(s, root, recursive, queue, seen, order) && queue != []
    requires Lists(s, queue[0])
    requires more == if recursive then Unseen(SubFolders(s, queue[0]), seen + {queue[0]}) else []
    ensures ScanInvariant(s, root, recursive, queue[1..] + more, seen + {queue[0]}, order + [queue[0]])
  {
    var fid := queue[0];
    assert forall x :: x in queue <==> x == fid || x in queue[1..];
    if recursive {
      forall x | x in more ensures InScope(s, root, recursive, x) {
        ReachStep(ScanGraph(s), root, fid, x);
      }
    }
  }

  lemma HasMember(xs: seq<Id>)
    ensures xs != [] ==> exists x :: x in xs
  {
    if xs != [] { assert xs[0] in xs; }
  }

  /** A folder popped again brings the first unseen entry one place forward; if there is none, all
    * its children have been seen, and the queue shrinks. */
  lemma ScanProgress(s: Server, root: Id, recursive: bool, queue: seq<Id>, seen: set<Id>, order: seq<Id>, more: seq<Id>)
    requires ScanInvariant(s, root, recursive, queue, seen, order) && queue != []
    requires queue[0] in seen
    requires more == if recursive then Unseen(SubFolders(s, queue[0]), seen) else []
    ensures FirstUnseen(queue[1..] + more, seen) < FirstUnseen(queue, seen)
  {
    if order == [] {
      assert queue[1..] + more == more;
      assert FirstUnseen(queue, seen) == 1 + FirstUnseen(queue[1..], seen);
      assert more != [] ==> more[0] in more;
    } else {
      if FirstUnseen(queue, seen) == |queue| {
        assert forall x :: x in queue ==> x in seen;
        assert recursive ==> forall c :: c in SubFolders(s, queue[0]) ==> c in seen;
        assert forall x :: x !in more;
        HasMember(more);
      }
      FirstUnseenAfterPop(queue, more, seen);
    }
  }

  /** First component of the termination measure. */
  ghost function UnseenCount(all: set<Id>, seen: set<Id>): nat {
    |all - seen|
  }

  lemma OneFewer(all: set<Id>, seen: set<Id>, fid: Id)
    requires fid in all && fid !in seen
    ensures UnseenCount(all, seen + {fid}) < UnseenCount(all, seen)
  {
    assert all - (seen + {fid}) == (all - seen) - {fid};
  }

  /** One iteration decreases the measure lexicographically. */
  lemma ScanDecreases(s: Server, root: Id, recursive: bool, all: set<Id>, queue: seq<Id>, seen: set<Id>,
                      order: seq<Id>, more: seq<Id>)
    requires ScanInvariant(s, root, recursive, queue, seen, order) && queue != []
    requires more == if recursive then Unseen(SubFolders(s, queue[0]), seen + {queue[0]}) else []
    requires queue[0] in all
    ensures var seen' := seen + {queue[0]};
      && UnseenCount(all, seen') <= UnseenCount(all, seen)
      && (UnseenCount(all, seen') == UnseenCount(all, seen) ==>
            FirstUnseen(queue[1..] + more, seen') < FirstUnseen(queue, seen))
  {
    hide ScanInvariant, FirstUnseen, UnseenCount;
    if queue[0] !in seen {
      OneFewer(all, seen, queue[0]);
    } else {
      var seen' := seen + {queue[0]};
      assert seen' == seen;
      ScanProgress(s, root, recursive, queue, seen, order, more);
    }
  }

  lemma ScanFails(s: Server, root: Id, recursive: bool, queue: seq<Id>, seen: set<Id>, order: seq<Id>)
    requires ScanInvariant(s, root, recursive, queue, seen, order) && queue != []
    requires !Lists(s, queue[0])
    ensures Scanned(s, root, recursive, Err(ListingRaised), order)
  {
    assert queue[0] in queue;
  }

  lemma ScanCompletes(s: Server, root: Id, recursive: bool, seen: set<Id>, order: seq<Id>)
    requires ScanInvariant(s, root, recursive, [], seen, order)
    ensures Scanned(s, root, recursive, Ok(DocumentsOf(s, order)), order)
  {
    if recursive {
      forall x | InScope(s, root, recursive, x) ensures x in order {
        var walk :| Walk(ScanGraph(s), root, walk, x);
        ClosedHoldsReachable(ScanGraph(s), seen, root, walk, x);
      }
    }
  }

  method ListFilesInFolder(s: Server, fid: Id, seen: set<Id>, recursive: bool)
    returns (r: Result<(seq<File>, seq<Id>), Error>)
    ensures r.Ok? <==> Lists(s, fid)
    ensures r.Ok? ==> r.value.0 == Documents(Items(s, fid))
                      && r.value.1 == if recursive then Unseen(SubFolders(s, fid), seen) else []
  {
    var listed := ReadPages(PagesOf(s.listing, fid));
    if listed.Err? { return Err(ListingRaised); }
    var subfolders := FolderIds(listed.value);
    var more := [];
    if recursive {
      var i := 0;
      while i < |subfolders|
        invariant 0 <= i <= |subfolders|
        invariant more == Unseen(subfolders[..i], seen)
      {
        assert subfolders[..i + 1][..i] == subfolders[..i];
        if subfolders[i] !in seen {
          more := more + [subfolders[i]];
        }
        i := i + 1;
      }
      assert subfolders[..i] == subfolders;
    }
    r := Ok((Documents(listed.value), more));
  }

  /** The scan.  `initiallySeen` is {root} when the container is a folder id, and {} when it is a
    * drive id that turned out not to be a shared drive.  A folder popped a second time is listed
    * again, so termination rests on the pair (unseen folders, first unseen queue position). */
  method ScanFolders(s: Server, root: Id, initiallySeen: set<Id>, recursive: bool)
    returns (r: Result<seq<File>, Error>)
    requires initiallySeen <= {root}
    ensures exists order :: Scanned(s, root, recursive, r, order)
  {
    var allFiles: seq<File> := [];
    var seenFolders := initiallySeen;
    var queue := [root];
    ghost var order: seq<Id> := [];
    ScanStarts(s, root, recursive, seenFolders);
    ghost var all := Universe(s, root);
    while queue != []
      invariant ScanInvariant(s, root, recursive, queue, seenFolders, order)
      invariant seenFolders <= all && forall x :: x in queue ==> x in all
      invariant allFiles == DocumentsOf(s, order)
      decreases UnseenCount(all, seenFolders), FirstUnseen(queue, seenFolders)
    {
      var fid := queue[0];
      var listed := ListFilesInFolder(s, fid, seenFolders + {fid}, recursive);
      if listed.Err? {
        ScanFails(s, root, recursive, queue, seenFolders, order);
        return Err(ListingRaised);
      }
      var more := listed.value.1;
      ScanStep(s, root, recursive, queue, seenFolders, order, more);
      ScanDecreases(s, root, recursive, all, queue, seenFolders, order, more);
      ChildrenInUniverse(s, root, fid);
      DocumentsOfAppend(s, order, fid);
      queue, seenFolders := queue[1..] + more, seenFolders + {fid};
      allFiles, order := allFiles + listed.value.0, order + [fid];
    }
    ScanCompletes(s, root, recursive, seenFolders, order);
    r := Ok(allFiles);
  }

  // ---------------------------------------------------------------- the incremental scope

  /** x is one of the direct children or a folder reachable from one of them. */
  ghost predicate Below(s: Server, direct: seq<Id>, x: Id) {
    exists d :: d in direct && Reachable(FolderGraph(s), d, x)
  }

  /** `ids` are the folders at one or more steps below the parent, or its direct children only. */
  ghost predicate IsSubtree(s: Server, parent: Id, recursive: bool, ids: seq<Id>) {
    forall x :: x in ids <==>
      if recursive then Below(s, ChildIds(s, parent), x) else x in ChildIds(s, parent)
  }

  lemma BelowStep(s: Server, direct: seq<Id>, x: Id, c: Id)
    requires Below(s, direct, x) && c in ChildIds(s, x)
    ensures Below(s, direct, c)
  {
    var d :| d in direct && Reachable(FolderGraph(s), d, x);
    ReachStep(FolderGraph(s), d, x, c);
  }

  ghost predicate ChildLoop(s: Server, direct: seq<Id>, queue: seq<Id>, found: seq<Id>) {
    && (forall x :: x in direct || x in queue ==> x in found)
    && (forall x :: x in found ==> Below(s, direct, x))
    && (forall x, c :: x in found && x !in queue && c in ChildIds(s, x) ==> c in found)
  }

  lemma ChildLoopStarts(s: Server, direct: seq<Id>)
    ensures ChildLoop(s, direct, direct, direct)
  {
    forall x | x in direct ensures Below(s, direct, x) {
      ReachSelf(FolderGraph(s), x);
    }
  }

  lemma ChildLoopStep(s: Server, direct: seq<Id>, queue: seq<Id>, found: seq<Id>, pushed: seq<Id>)
    requires ChildLoop(s, direct, queue, found) && queue != []
    requires forall x :: x in pushed ==> x in ChildIds(s, queue[0])
    requires forall x :: x in ChildIds(s, queue[0]) ==> x in found || x in pushed
    ensures ChildLoop(s, direct, queue[1..] + pushed, found + pushed)
  {
    var fid := queue[0];
    assert fid in queue;
    forall x | x in pushed ensures Below(s, direct, x) {
      BelowStep(s, direct, fid, x);
    }
    var queue', found' := queue[1..] + pushed, found + pushed;
    forall x, c | x in found' && x !in queue' && c in ChildIds(s, x) ensures c in found' {
      if x != fid {
        assert x !in queue;
      }
    }
  }

  lemma ChildLoopEnds(s: Server, direct: seq<Id>, found: seq<Id>)
    requires ChildLoop(s, direct, [], found)
    ensures forall x :: x in found <==> Below(s, direct, x)
  {
    var all := set x | x in found;
    forall x | Below(s, direct, x) ensures x in found {
      var d :| d in direct && Reachable(FolderGraph(s), d, x);
      var walk :| Walk(FolderGraph(s), d, walk, x);
      ClosedHoldsReachable(FolderGraph(s), all, d, walk, x);
    }
  }

  ghost function ChildUniverse(s: Server): (all: set<Id>)
    ensures forall fid, c :: c in ChildIds(s, fid) ==> c in all
  {
    set k, c | k in s.folderListing && c in ChildIds(s, k) :: c
  }

  /** The ids of `xs` that are new, each once, in order. */
  function NewIds(xs: seq<Id>, seen: set<Id>): (r: seq<Id>)
    ensures forall x :: x in r <==> x in xs && x !in seen
  {
    if xs == [] then []
    else
      var before, x := NewIds(xs[..|xs| - 1], seen), xs[|xs| - 1];
      assert forall y :: y in xs <==> y in xs[..|xs| - 1] || y == x;
      if x in seen || x in before then before else before + [x]
  }

  /** A folder is pushed once. */
  lemma {:induction false} NewIdsOnce(xs: seq<Id>, seen: set<Id>)
    ensures forall i, j :: 0 <= i < j < |NewIds(xs, seen)| ==> NewIds(xs, seen)[i] != NewIds(xs, seen)[j]
    decreases |xs|
  {
    if xs != [] {
      NewIdsOnce(xs[..|xs| - 1], seen);
    }
  }

  /** A folder that the scan meets twice in one listing is queued twice, in the order of the listing. */
  lemma {:induction false} UnseenLaw(xs: seq<Id>, ys: seq<Id>, seen: set<Id>)
    ensures Unseen(xs + ys, seen) == Unseen(xs, seen) + Unseen(ys, seen)
    ensures forall x :: Unseen([x], seen) == if x in seen then [] else [x]
    decreases |ys|
  {
    assert forall x: Id :: [x][..0] == [];
    if ys == [] {
      assert xs + ys == xs;
    } else {
      var n := |ys| - 1;
      assert (xs + ys)[..|xs + ys| - 1] == xs + ys[..n];
      UnseenLaw(xs, ys[..n], seen);
    }
  }

  function SetOf(xs: seq<Id>): set<Id> {
    set x | x in xs
  }

  lemma SetOfAppend(xs: seq<Id>, ys: seq<Id>)
    ensures SetOf(xs + ys) == SetOf(xs) + SetOf(ys)
  {
  }

  lemma PushDecreases(all: set<Id>, seen: set<Id>, pushed: seq<Id>)
    requires SetOf(pushed) !! seen && SetOf(pushed) <= all
    ensures UnseenCount(all, seen + SetOf(pushed)) <= UnseenCount(all, seen)
    ensures pushed != [] ==> UnseenCount(all, seen + SetOf(pushed)) < UnseenCount(all, seen)
  {
    var seen' := seen + SetOf(pushed);
    assert all - seen == (all - seen') + SetOf(pushed);
    assert |all - seen| == |all - seen'| + |SetOf(pushed)|;
    if pushed != [] {
      assert pushed[0] in SetOf(pushed);
    }
  }

  /** The inner loop over the nested folders: a folder is marked when it is pushed. */
  method CollectNew(nested: seq<Id>, seen0: set<Id>) returns (more: seq<Id>)
    ensures more == NewIds(nested, seen0)
  {
    more := [];
    var seen := seen0;
    var i := 0;
    while i < |nested|
      invariant 0 <= i <= |nested|
      invariant more == NewIds(nested[..i], seen0)
      invariant seen == seen0 + SetOf(more)
    {
      assert nested[..i + 1][..i] == nested[..i];
      var nid := nested[i];
      if nid !in seen {
        seen := seen + {nid};
        more := more + [nid];
      }
      i := i + 1;
    }
    assert nested[..i] == nested;
  }

  method ListDirectChildren(s: Server, fid: Id) returns (r: Result<seq<Id>, Error>)
    ensures r.Ok? <==> Read(PagesOf(s.folderListing, fid)).Ok?
    ensures r.Ok? ==> r.value == ChildIds(s, fid)
    ensures r.Err? ==> ChildIds(s, fid) == []
  {
    var listed := ReadPages(PagesOf(s.folderListing, fid));
    r := if listed.Err? then Err(ListingRaised) else Ok(NonEmptyIds(listed.value));
  }

  /** _list_child_folders: fails only if the parent itself cannot be listed; a nested folder that
    * raises is skipped. */
  method ListChildFolders(s: Server, parent: Id, recursive: bool) returns (r: Result<seq<Id>, Error>)
    ensures r.Ok? <==> Read(PagesOf(s.folderListing, parent)).Ok?
    ensures r.Ok? ==> IsSubtree(s, parent, recursive, r.value)
  {
    hide ChildLoop, UnseenCount, Below;
    var directChildren := ListDirectChildren(s, parent);
    if directChildren.Err? || !recursive { return directChildren; }
    ghost var direct := directChildren.value;
    ghost var all := ChildUniverse(s);
    var allFolders := directChildren.value;
    var seen := SetOf(allFolders);
    var queue := allFolders;
    ChildLoopStarts(s, direct);
    while queue != []
      invariant ChildLoop(s, direct, queue, allFolders)
      invariant seen == SetOf(allFolders) && seen <= all
      decreases UnseenCount(all, seen), |queue|
    {
      var fid := queue[0];
      var nested := ListDirectChildren(s, fid);
      if nested.Ok? {
        var more := CollectNew(nested.value, seen);
        ChildLoopStep(s, direct, queue, allFolders, more);
        PushDecreases(all, seen, more);
        SetOfAppend(allFolders, more);
        seen := seen + SetOf(more);
        allFolders := allFolders + more;
        queue := queue[1..] + more;
      } else {
        ChildLoopStep(s, direct, queue, allFolders, []);
        assert queue[1..] + [] == queue[1..] && allFolders + [] == allFolders;
        queue := queue[1..];
      }
    }
    ChildLoopEnds(s, direct, allFolders);
    r := Ok(allFolders);
  }

  // ---------------------------------------------------------------- the change feed

  datatype Change = Change(removed: bool, fileId: Option<Id>, file: Option<File>)

  datatype ChangePage = ChangePage(changes: seq<Change>, newStart: Option<string>) | NotADict | FeedRaises

  datatype Feed = Feed(files: seq<File>, removedIds: seq<Id>, newStart: Option<string>)

  /** Deleted or trashed: the id to remove, if the change carries a non-empty one. */
  function RemovedId(c: Change): Option<Id> {
    if c.removed then
      if c.fileId.Some? && c.fileId.value != "" then c.fileId
      else if c.file.Some? && c.file.value.id != "" then Some(c.file.value.id)
      else None
    else if c.file.Some? && c.file.value.trashed && c.file.value.id != "" then Some(c.file.value.id)
    else None
  }

  function UpsertedFile(c: Change): Option<File> {
    if !c.removed && c.file.Some? && !c.file.value.trashed then c.file else None
  }

  /** The changes of the pages up to the first answer that is not an object. */
  function AllChanges(pages: seq<ChangePage>): seq<Change> {
    if pages == [] || !pages[0].ChangePage? then [] else pages[0].changes + AllChanges(pages[1..])
  }

  /** A request raises before the feed ends. */
  predicate Breaks(pages: seq<ChangePage>) {
    pages != [] && (pages[0].FeedRaises? || (pages[0].ChangePage? && Breaks(pages[1..])))
  }

  /** The last non-empty newStartPageToken among those pages, `token` if there is none. */
  function LatestStart(pages: seq<ChangePage>, token: Option<string>): Option<string> {
    if pages == [] || !pages[0].ChangePage? then token
    else
      var start := pages[0].newStart;
      LatestStart(pages[1..], if start.Some? && start.value != "" then start else token)
  }

  function Upserted(changes: seq<Change>): (files: seq<File>)
    ensures forall f :: f in files <==> exists c :: c in changes && UpsertedFile(c) == Some(f)
  {
    if changes == [] then []
    else
      var c := changes[|changes| - 1];
      var before := Upserted(changes[..|changes| - 1]);
      assert changes == changes[..|changes| - 1] + [c];
      match UpsertedFile(c) { case Some(f) => before + [f] case None => before }
  }

  function Removed(changes: seq<Change>): seq<Id> {
    if changes == [] then []
    else
      var before := Removed(changes[..|changes| - 1]);
      match RemovedId(changes[|changes| - 1]) { case Some(id) => before + [id] case None => before }
  }

  lemma OneMoreChange(before: seq<Change>, c: Change)
    ensures Upserted(before + [c]) ==
            match UpsertedFile(c) { case Some(f) => Upserted(before) + [f] case None => Upserted(before) }
    ensures Removed(before + [c]) ==
            match RemovedId(c) { case Some(id) => Removed(before) + [id] case None => Removed(before) }
  {
    assert (before + [c])[..|before|] == before;
  }

  /** The ids a change gives up: the id of a removed file, wherever it is given, or of a trashed one. */
  lemma RemovedIdIs(c: Change)
    ensures c.removed && c.fileId.Some? && c.fileId.value != "" ==> RemovedId(c) == c.fileId
    ensures c.removed && (c.fileId == None || c.fileId == Some("")) ==>
              RemovedId(c) == if c.file.Some? && c.file.value.id != "" then Some(c.file.value.id) else None
    ensures !c.removed && c.file.Some? && c.file.value.trashed && c.file.value.id != "" ==>
              RemovedId(c) == Some(c.file.value.id)
    ensures !c.removed && (c.file.None? || !c.file.value.trashed || c.file.value.id == "") ==> RemovedId(c) == None
    ensures UpsertedFile(c) == if !c.removed && c.file.Some? && !c.file.value.trashed then c.file else None
  {
  }

  /** The feed goes on for n pages, and no further. */
  ghost predicate FeedGoesOnFor(pages: seq<ChangePage>, n: nat) {
    n <= |pages| && (forall i :: 0 <= i < n ==> pages[i].ChangePage?) && (n < |pages| ==> !pages[n].ChangePage?)
  }

  function ChangesOf(page: ChangePage): seq<Change> {
    match page
    case ChangePage(changes, _) => changes
    case _ => []
  }

  ghost function ChangeParts(pages: seq<ChangePage>, n: nat): seq<seq<Change>>
    requires n <= |pages|
  {
    seq(n, i requires 0 <= i < n => ChangesOf(pages[i]))
  }

  /** A page brings a start token. */
  predicate HasStart(page: ChangePage) {
    page.ChangePage? && page.newStart.Some? && page.newStart.value != ""
  }

  /** Page i is the last of the first n that brings one. */
  ghost predicate LastStart(pages: seq<ChangePage>, n: nat, i: nat)
    requires i < n <= |pages|
  {
    HasStart(pages[i]) && forall k :: i < k < n ==> !HasStart(pages[k])
  }

  /** A feed that goes on for n pages breaks exactly if the next answer raises; its changes are those of
    * the n pages, each page at its place. */
  lemma {:induction false} FeedIs(pages: seq<ChangePage>, n: nat)
    requires FeedGoesOnFor(pages, n)
    ensures Breaks(pages) <==> n < |pages| && pages[n].FeedRaises?
    ensures Joins(ChangeParts(pages, n), AllChanges(pages))
    decreases n
  {
    if n > 0 {
      var tail := pages[1..];
      FeedIs(tail, n - 1);
      OneMorePart(pages[0].changes, ChangeParts(tail, n - 1), AllChanges(tail));
      assert ChangeParts(pages, n) == [pages[0].changes] + ChangeParts(tail, n - 1);
    }
  }

  /** The start token is that of the last of those pages that brings one, `token` if none does. */
  lemma {:induction false} LatestStartIs(pages: seq<ChangePage>, n: nat, token: Option<string>)
    requires FeedGoesOnFor(pages, n)
    ensures (forall i :: 0 <= i < n ==> !HasStart(pages[i])) ==> LatestStart(pages, token) == token
    ensures forall i :: 0 <= i < n && LastStart(pages, n, i) ==> LatestStart(pages, token) == pages[i].newStart
    decreases n
  {
    if n > 0 {
      var tail := pages[1..];
      assert forall i :: 0 <= i < |tail| ==> tail[i] == pages[i + 1];
      LatestStartIs(tail, n - 1, if HasStart(pages[0]) then pages[0].newStart else token);
      assert (forall i :: 0 <= i < n - 1 ==> !HasStart(tail[i])) <==> forall i :: 1 <= i < n ==> !HasStart(pages[i]);
      forall i | 0 <= i < n && LastStart(pages, n, i) ensures LatestStart(pages, token) == pages[i].newStart {
        if i > 0 {
          assert LastStart(tail, n - 1, i - 1);
        }
      }
    }
  }

  /** The files and the ids of a feed keep its order and its repetitions. */
  lemma {:induction false} FeedLaws(xs: seq<Change>, ys: seq<Change>)
    ensures Upserted(xs + ys) == Upserted(xs) + Upserted(ys)
    ensures Removed(xs + ys) == Removed(xs) + Removed(ys)
    decreases |ys|
  {
    if ys == [] {
      assert xs + ys == xs;
    } else {
      var n := |ys| - 1;
      assert (xs + ys)[..|xs + ys| - 1] == xs + ys[..n];
      FeedLaws(xs, ys[..n]);
    }
  }

  lemma FeedOfOne(c: Change)
    ensures Upserted([c]) == match UpsertedFile(c) { case Some(f) => [f] case None => [] }
    ensures Removed([c]) == match RemovedId(c) { case Some(id) => [id] case None => [] }
  {
    assert [c][..0] == [];
  }

  /** The inner loop over one page of changes, after those in `done`. */
  method SplitChanges(changes: seq<Change>, ghost done: seq<Change>, files0: seq<File>, removedIds0: seq<Id>)
    returns (files: seq<File>, removedIds: seq<Id>)
    requires files0 == Upserted(done) && removedIds0 == Removed(done)
    ensures files == Upserted(done + changes) && removedIds == Removed(done + changes)
  {
    hide Upserted, Removed;
    files, removedIds := files0, removedIds0;
    assert done + [] == done;
    var j := 0;
    while j < |changes|
      invariant 0 <= j <= |changes|
      invariant files == Upserted(done + changes[..j]) && removedIds == Removed(done + changes[..j])
    {
      var c := changes[j];
      OneMoreChange(done + changes[..j], c);
      assert done + changes[..j + 1] == (done + changes[..j]) + [c];
      if c.removed {
        var id := if c.fileId.Some? && c.fileId.value != "" then c.fileId
                  else if c.file.Some? && c.file.value.id != "" then Some(c.file.value.id) else None;
        if id.Some? { removedIds := removedIds + [id.value]; }
      } else if c.file.Some? {
        if c.file.value.trashed {
          if c.file.value.id != "" { removedIds := removedIds + [c.file.value.id]; }
        } else {
          files := files + [c.file.value];
        }
      }
      j := j + 1;
    }
    assert changes[..j] == changes;
  }

  lemma NextPage(pages: seq<ChangePage>, i: nat, done: seq<Change>, token: Option<string>)
    requires i < |pages|
    ensures Breaks(pages[i..]) <==> pages[i].FeedRaises? || (pages[i].ChangePage? && Breaks(pages[i + 1..]))
    ensures pages[i].NotADict? ==>
              done + AllChanges(pages[i..]) == done && LatestStart(pages[i..], token) == token
    ensures pages[i].ChangePage? ==>
              done + AllChanges(pages[i..]) == (done + pages[i].changes) + AllChanges(pages[i + 1..])
    ensures pages[i].ChangePage? ==>
              var start := pages[i].newStart;
              LatestStart(pages[i..], token) ==
              LatestStart(pages[i + 1..], if start.Some? && start.value != "" then start else token)
  {
    assert pages[i..][1..] == pages[i + 1..];
  }

  method IterChanges(pages: seq<ChangePage>) returns (r: Result<Feed, Error>)
    ensures r.Err? <==> Breaks(pages)
    ensures r.Ok? ==> r.value == Feed(Upserted(AllChanges(pages)), Removed(AllChanges(pages)), LatestStart(pages, None))
  {
    assert Upserted([]) == [] && Removed([]) == [] && AllChanges([]) == [] && !Breaks([]);
    hide Upserted, Removed, AllChanges, Breaks;
    var files: seq<File>, removedIds: seq<Id>, newStart: Option<string> := [], [], None;
    ghost var done: seq<Change> := [];
    var i := 0;
    assert pages[0..] == pages;
    while i < |pages|
      invariant 0 <= i <= |pages|
      invariant Breaks(pages) == Breaks(pages[i..])
      invariant AllChanges(pages) == done + AllChanges(pages[i..])
      invariant LatestStart(pages, None) == LatestStart(pages[i..], newStart)
      invariant files == Upserted(done) && removedIds == Removed(done)
    {
      NextPage(pages, i, done, newStart);
      if pages[i].FeedRaises? { return Err(ListingRaised); }
      if pages[i].NotADict? { return Ok(Feed(files, removedIds, newStart)); }
      if pages[i].newStart.Some? && pages[i].newStart.value != "" {
        newStart := pages[i].newStart;
      }
      files, removedIds := SplitChanges(pages[i].changes, done, files, removedIds);
      done := done + pages[i].changes;
      i := i + 1;
    }
    assert pages[i..] == [] && done + [] == done;
    return Ok(Feed(files, removedIds, newStart));
  }

  /** Whether some parent of the file lies in the subtree. */
  predicate Accepted(f: File, subtree: set<Id>) {
    exists p :: p in f.parents && p in subtree
  }

  function ScopeFiltered(files: seq<File>, subtree: set<Id>): (r: seq<File>)
    ensures forall f :: f in r <==> f in files && Accepted(f, subtree) && !IsFolder(f)
  {
    if files == [] then []
    else
      var f := files[|files| - 1];
      var before := ScopeFiltered(files[..|files| - 1], subtree);
      assert files == files[..|files| - 1] + [f];
      if Accepted(f, subtree) && !IsFolder(f) then before + [f] else before
  }

  lemma {:induction false} ScopeLaws(xs: seq<File>, ys: seq<File>, subtree: set<Id>)
    ensures ScopeFiltered(xs + ys, subtree) == ScopeFiltered(xs, subtree) + ScopeFiltered(ys, subtree)
    decreases |ys|
  {
    if ys == [] {
      assert xs + ys == xs;
    } else {
      var n := |ys| - 1;
      assert (xs + ys)[..|xs + ys| - 1] == xs + ys[..n];
      ScopeLaws(xs, ys[..n], subtree);
    }
  }

  lemma ScopeOfOne(f: File, subtree: set<Id>)
    ensures ScopeFiltered([f], subtree) ==
            if (exists p :: p in f.parents && p in subtree) && f.mime != "application/vnd.google-apps.folder" then [f] else []
  {
    assert [f][..0] == [];
  }

  /** The folders the incremental path adds to the folder itself: none when listing it raises. */
  ghost predicate IsIncrementalScope(s: Server, folderId: Id, recursive: bool, found: seq<Id>) {
    if Read(PagesOf(s.folderListing, folderId)).Ok? then IsSubtree(s, folderId, recursive, found) else found == []
  }

  /** What the download loop gets to see of the changed files; without a folder, all documents. */
  ghost predicate Handed(s: Server, folderId: Option<Id>, recursive: bool, changed: seq<File>, files: seq<File>) {
    if folderId.None? then files == Documents(changed)
    else exists found :: IsIncrementalScope(s, folderId.value, recursive, found)
           && files == ScopeFiltered(changed, {folderId.value} + SetOf(found))
  }

  /** The incremental path up to the download loop: compute the subtree (only the folder itself if
    * that raises), read the feed, keep the files in scope, skip folders. */
  method IncrementalFiles(s: Server, folderId: Option<Id>, recursive: bool, pages: seq<ChangePage>)
    returns (r: Result<seq<File>, Error>)
    ensures r.Err? <==> Breaks(pages)
    ensures r.Ok? ==> Handed(s, folderId, recursive, Upserted(AllChanges(pages)), r.value)
  {
    hide Breaks, AllChanges, Upserted;
    var subtreeIds: Option<set<Id>> := None;
    ghost var found: seq<Id> := [];
    if folderId.Some? {
      var ids := ListChildFolders(s, folderId.value, recursive);
      found := if ids.Ok? then ids.value else [];
      subtreeIds := Some({folderId.value} + if ids.Ok? then SetOf(ids.value) else {});
      assert IsIncrementalScope(s, folderId.value, recursive, found);
    }
    var feed := IterChanges(pages);
    if feed.Err? { return Err(ListingRaised); }
    if subtreeIds.None? { return Ok(Documents(feed.value.files)); }
    var files := FilterScope(feed.value.files, subtreeIds.value);
    assert SetOf([]) == {};
    return Ok(files);
  }

  method FilterScope(changed: seq<File>, subtreeIds: set<Id>) returns (files: seq<File>)
    ensures files == ScopeFiltered(changed, subtreeIds)
  {
    files := [];
    var i := 0;
    while i < |changed|
      invariant 0 <= i <= |changed|
      invariant files == ScopeFiltered(changed[..i], subtreeIds)
    {
      assert changed[..i + 1][..i] == changed[..i];
      if (exists p :: p in changed[i].parents && p in subtreeIds) && !IsFolder(changed[i]) {
        files := files + [changed[i]];
      }
      i := i + 1;
    }
    assert changed[..i] == changed;
  }

  // ---------------------------------------------------------------- the two paths agree

  /** The server answers both queries from one tree, without errors: a folder lists the untrashed
    * files that name it as a parent. */
  ghost predicate Serves(s: Server, tree: set<File>) {
    && (forall f :: f in tree ==> f.id != "")
    && (forall fid :: Lists(s, fid) && Read(PagesOf(s.folderListing, fid)).Ok?)
    && (forall fid, f :: f in Items(s, fid) <==> f in tree && !f.trashed && fid in f.parents)
    && (forall fid, x :: x in ChildIds(s, fid) <==>
          exists f :: f in tree && !f.trashed && fid in f.parents && IsFolder(f) && f.id == x)
  }

  lemma SameChildren(s: Server, tree: set<File>, a: Id, b: Id)
    requires Serves(s, tree)
    ensures b in SubFolders(s, a) <==> b in ChildIds(s, a)
  {
    if b in SubFolders(s, a) {
      var f :| f in Items(s, a) && IsFolder(f) && f.id == b;
    }
    if b in ChildIds(s, a) {
      var f :| f in tree && !f.trashed && a in f.parents && IsFolder(f) && f.id == b;
      assert f in Items(s, a);
    }
  }

  lemma ReachViaChild(next: Id -> seq<Id>, root: Id, x: Id)
    ensures Reachable(next, root, x) <==> x == root || exists d :: d in next(root) && Reachable(next, d, x)
  {
    if Reachable(next, root, x) && x != root {
      var walk :| Walk(next, root, walk, x);
      assert Walk(next, walk[1], walk[1..], x);
    }
    if x == root {
      ReachSelf(next, root);
    } else if exists d :: d in next(root) && Reachable(next, d, x) {
      var d :| d in next(root) && Reachable(next, d, x);
      var walk :| Walk(next, d, walk, x);
      assert Walk(next, root, [root] + walk, x);
    }
  }

  /** The folders of the recursive incremental scope are the folders of the full scan. */
  lemma SubtreeIsScanScope(s: Server, tree: set<File>, root: Id, found: seq<Id>, x: Id)
    requires Serves(s, tree) && IsSubtree(s, root, true, found)
    ensures x == root || x in found <==> InScope(s, root, true, x)
  {
    forall a, b ensures b in SubFolders(s, a) <==> b in ChildIds(s, a) {
      SameChildren(s, tree, a, b);
    }
    SameEdgesSameReach(ScanGraph(s), FolderGraph(s), root, x);
    ReachViaChild(FolderGraph(s), root, x);
  }

  /** With recursive on, the filter accepts a document of the tree exactly when a full scan of the
    * same tree lists it. */
  lemma FilterAgreesWithScan(s: Server, tree: set<File>, root: Id, found: seq<Id>,
                             files: seq<File>, order: seq<Id>, f: File)
    requires Serves(s, tree) && f in tree && !f.trashed && !IsFolder(f)
    requires IsSubtree(s, root, true, found)
    requires Scanned(s, root, true, Ok(files), order)
    ensures f in files <==> Accepted(f, {root} + SetOf(found))
  {
    DocumentsOfMembers(s, order);
    forall p ensures p in ({root} + SetOf(found)) <==> p in order {
      SubtreeIsScanScope(s, tree, root, found, p);
    }
    if f in files {
      var fid :| fid in order && f in Documents(Items(s, fid));
      assert fid in f.parents;
    }
    if Accepted(f, {root} + SetOf(found)) {
      var p :| p in f.parents && p in ({root} + SetOf(found));
      assert f in Items(s, p);
      assert f in Documents(Items(s, p));
    }
  }

  /** With recursive off the scan lists the root alone, but the filter also accepts files of the
    * root's direct child folders: the incremental scope is one level deeper. */
  lemma FlatFilterIsOneLevelDeeper(s: Server, tree: set<File>, root: Id, found: seq<Id>,
                                   files: seq<File>, order: seq<Id>, f: File)
    requires Serves(s, tree) && f in tree && !f.trashed && !IsFolder(f)
    requires IsSubtree(s, root, false, found)
    requires Scanned(s, root, false, Ok(files), order)
    ensures f in files ==> Accepted(f, {root} + SetOf(found))
    ensures Accepted(f, {root} + SetOf(found)) <==>
            f in files || exists d :: d in SubFolders(s, root) && d in f.parents
  {
    DocumentsOfMembers(s, order);
    assert InScope(s, root, false, root);
    if root in f.parents {
      assert f in Items(s, root);
      assert f in Documents(Items(s, root));
    }
    forall d ensures d in found <==> d in SubFolders(s, root) {
      SameChildren(s, tree, root, d);
    }
  }

  /** End to end: for a feed over the tree, the incremental run hands to ingestion exactly the
    * changed documents that a full scan would have listed. */
  lemma IncrementalAgreesWithScan(s: Server, tree: set<File>, root: Id, found: seq<Id>, pages: seq<ChangePage>,
                                  files: seq<File>, order: seq<Id>, f: File)
    requires Serves(s, tree)
    requires forall g :: g in Upserted(AllChanges(pages)) ==> g in tree
    requires IsSubtree(s, root, true, found)
    requires Scanned(s, root, true, Ok(files), order)
    ensures f in ScopeFiltered(Upserted(AllChanges(pages)), {root} + SetOf(found))
            <==> f in Upserted(AllChanges(pages)) && f in files
  {
    DocumentsOfMembers(s, order);
    if f in Upserted(AllChanges(pages)) && !IsFolder(f) {
      FilterAgreesWithScan(s, tree, root, found, files, order, f);
    }
  }
}
