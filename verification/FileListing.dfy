/** Listing the supported files of a bucket page by page (backend/apps/files/services.py,
    lines 26-37 and 62-98). */
module FileListing {
  import opened Strings
  import opened Wrappers

  type Key = string

  datatype FileType = CSV | XLSX

  datatype S3Object = S3Object(key: Key, size: nat)

  datatype StoredFile = StoredFile(key: Key, size: nat, fileType: FileType)

  datatype FilePage = FilePage(files: seq<StoredFile>, nextCursor: Option<Key>)

  /** How the name of a file decides its type; any such function will do. */
  type Classifier = Key -> Option<FileType>

  // --- the bucket ---

  /** S3 lists keys in the order of their characters. */
  ghost predicate Sorted(objects: seq<S3Object>) {
    forall i, j | 0 <= i < j < |objects| :: Below(objects[i].key, objects[j].key)
  }

  predicate HasPrefix(key: Key, prefix: string) {
    prefix <= key
  }

  /** The objects under a prefix that come after a key; the empty key comes before all. */
  function Matching(objects: seq<S3Object>, prefix: string, startAfter: Key): seq<S3Object> {
    if objects == [] then
      []
    else
      var rest := Matching(objects[1..], prefix, startAfter);
      if HasPrefix(objects[0].key, prefix) && (startAfter == "" || Below(startAfter, objects[0].key)) then
        [objects[0]] + rest
      else
        rest
  }

  /** An S3 server: it answers a request with some of the matching objects, from the first on, and
      says whether there are more. How many it gives at a time is its own choice, but it gives at
      least one when there is one. */
  class S3Client {
    const objects: seq<S3Object>

    constructor (objects: seq<S3Object>)
      ensures this.objects == objects
    {
      this.objects := objects;
    }

    method ListObjects(prefix: string, maxKeys: nat, startAfter: Key)
      returns (contents: seq<S3Object>, truncated: bool)
      requires maxKeys >= 1
      ensures var matching := Matching(objects, prefix, startAfter);
              && contents <= matching
              && |contents| <= maxKeys
              && (truncated <==> contents != matching)
              && (truncated ==> contents != [])
    {
      var matching := Matching(objects, prefix, startAfter);
      if matching == [] {
        contents := [];
      } else {
        var n: nat :| 1 <= n <= |matching| && n <= maxKeys;
        contents := matching[..n];
      }
      truncated := |contents| < |matching|;
    }
  }

  // --- what a page is ---

  function Supported(objects: seq<S3Object>, classify: Classifier): seq<StoredFile> {
    if objects == [] then
      []
    else
      var rest := Supported(objects[1..], classify);
      match classify(objects[0].key)
      case Some(fileType) => [StoredFile(objects[0].key, objects[0].size, fileType)] + rest
      case None => rest
  }

  /** How many objects it takes to collect `n` supported ones, or all of them. */
  function Needed(objects: seq<S3Object>, classify: Classifier, n: nat): nat
    ensures Needed(objects, classify, n) <= |objects|
  {
    if n == 0 || objects == [] then 0
    else 1 + Needed(objects[1..], classify, if classify(objects[0].key).Some? then n - 1 else n)
  }

  /** The page after a cursor: the first files, and a cursor exactly when the page is full and the
      bucket goes on after it. It does not depend on how the server cuts its answers. */
  function PageAfter(matching: seq<S3Object>, classify: Classifier, pageSize: nat): FilePage {
    var needed := Needed(matching, classify, pageSize);
    var files := Supported(matching[..needed], classify);
    FilePage(
      files,
      if files != [] && |files| == pageSize && needed < |matching| then Some(files[|files| - 1].key) else None)
  }

  function CursorKey(cursor: Option<Key>): Key {
    if cursor.Some? then cursor.value else ""
  }

  // --- the loop ---

  /** What S3 guarantees of a bucket: keys in order, none of them empty. */
  ghost predicate Bucket(objects: seq<S3Object>) {
    Sorted(objects) && forall o | o in objects :: o.key != ""
  }

  lemma {:induction false} SupportedJoins(a: seq<S3Object>, b: seq<S3Object>, classify: Classifier)
    ensures Supported(a + b, classify) == Supported(a, classify) + Supported(b, classify)
  {
    if a == [] {
      assert a + b == b;
    } else {
      assert (a + b)[1..] == a[1..] + b;
      SupportedJoins(a[1..], b, classify);
    }
  }

  lemma SupportedOneMore(objects: seq<S3Object>, i: nat, classify: Classifier)
    requires i < |objects|
    ensures Supported(objects[..i + 1], classify) ==
            Supported(objects[..i], classify) +
            (match classify(objects[i].key)
             case Some(fileType) => [StoredFile(objects[i].key, objects[i].size, fileType)]
             case None => [])
  {
    assert objects[..i + 1] == objects[..i] + [objects[i]];
    SupportedJoins(objects[..i], [objects[i]], classify);
  }

  /** Collecting can be done in two stretches. */
  lemma {:induction false} NeededInTwo(objects: seq<S3Object>, classify: Classifier, n: nat, d: nat)
    requires d <= |objects| && |Supported(objects[..d], classify)| < n
    ensures Needed(objects, classify, n) == d + Needed(objects[d..], classify, n - |Supported(objects[..d], classify)|)
  {
    if d > 0 {
      var rest := objects[1..];
      assert objects[..d][1..] == rest[..d - 1] && rest[d - 1..] == objects[d..];
      NeededInTwo(rest, classify, if classify(objects[0].key).Some? then n - 1 else n, d - 1);
    }
  }

  /** The page is full after object `d` has been looked at. */
  lemma NeededAt(objects: seq<S3Object>, classify: Classifier, n: nat, d: nat)
    requires d < |objects| && |Supported(objects[..d], classify)| < n == |Supported(objects[..d + 1], classify)|
    ensures Needed(objects, classify, n) == d + 1
  {
    NeededInTwo(objects, classify, n, d);
    SupportedOneMore(objects, d, classify);
    assert objects[d..][0] == objects[d];
  }

  lemma NeededAll(objects: seq<S3Object>, classify: Classifier, n: nat)
    requires |Supported(objects, classify)| < n
    ensures Needed(objects, classify, n) == |objects|
  {
    assert objects[..|objects|] == objects;
    NeededInTwo(objects, classify, n, |objects|);
  }

  lemma {:induction false} MatchingIn(objects: seq<S3Object>, prefix: string, startAfter: Key, o: S3Object)
    ensures o in Matching(objects, prefix, startAfter) <==>
            o in objects && HasPrefix(o.key, prefix) && (startAfter == "" || Below(startAfter, o.key))
  {
    if objects != [] {
      MatchingIn(objects[1..], prefix, startAfter, o);
      assert objects == [objects[0]] + objects[1..];
    }
  }

  lemma {:induction false} MatchingSorted(objects: seq<S3Object>, prefix: string, startAfter: Key)
    requires Bucket(objects)
    ensures Bucket(Matching(objects, prefix, startAfter))
  {
    var matching := Matching(objects, prefix, startAfter);
    if objects != [] {
      var rest := Matching(objects[1..], prefix, startAfter);
      MatchingSorted(objects[1..], prefix, startAfter);
      forall o | o in rest ensures Below(objects[0].key, o.key) {
        MatchingIn(objects[1..], prefix, startAfter, o);
        var i :| 0 <= i < |objects[1..]| && objects[1..][i] == o;
        assert o == objects[i + 1];
      }
      assert objects[0] in objects;
      if matching != rest {
        forall i, j | 0 <= i < j < |matching| ensures Below(matching[i].key, matching[j].key) {
          assert matching[j] == rest[j - 1];
        }
      }
    }
  }

  /** Resuming after the key of a listed object gives the listing from there on. */
  lemma {:induction false} ResumeAfter(objects: seq<S3Object>, prefix: string, startAfter: Key, k: nat)
    requires Bucket(objects) && k < |Matching(objects, prefix, startAfter)|
    ensures Matching(objects, prefix, Matching(objects, prefix, startAfter)[k].key) ==
            Matching(objects, prefix, startAfter)[k + 1..]
  {
    var matching := Matching(objects, prefix, startAfter);
    var first, rest := objects[0], Matching(objects[1..], prefix, startAfter);
    var key := matching[k].key;
    MatchingSorted(objects, prefix, startAfter);
    MatchingIn(objects, prefix, startAfter, matching[k]);
    assert key != "";
    if matching == rest {
      var at := matching[k];
      MatchingIn(objects[1..], prefix, startAfter, at);
      var i :| 0 <= i < |objects[1..]| && objects[1..][i] == at;
      assert at == objects[i + 1] && Below(first.key, key);
      NotBothBelow(first.key, key);
      ResumeAfter(objects[1..], prefix, startAfter, k);
    } else if k == 0 {
      assert matching == [first] + rest && matching[1..] == rest;
      BelowIrreflexive(first.key);
      AllAfter(objects[1..], prefix, startAfter, first.key);
    } else {
      assert matching == [first] + rest;
      assert matching[k] == rest[k - 1] && matching[k + 1..] == rest[k..];
      assert Below(matching[0].key, matching[k].key);
      NotBothBelow(first.key, key);
      ResumeAfter(objects[1..], prefix, startAfter, k - 1);
    }
  }

  lemma NotBothBelow(a: Key, b: Key)
    requires Below(a, b)
    ensures !Below(b, a)
  {
    if Below(b, a) {
      BelowTransitive(a, b, a);
      BelowIrreflexive(a);
    }
  }

  /** Objects that all come after a key, which itself comes after the start. */
  lemma {:induction false} AllAfter(objects: seq<S3Object>, prefix: string, startAfter: Key, key: Key)
    requires key != "" && forall o | o in objects :: Below(key, o.key)
    requires startAfter == "" || Below(startAfter, key)
    ensures Matching(objects, prefix, startAfter) == Matching(objects, prefix, key)
  {
    if objects != [] {
      assert objects[0] in objects;
      if startAfter != "" {
        BelowTransitive(startAfter, key, objects[0].key);
      }
      AllAfter(objects[1..], prefix, startAfter, key);
    }
  }

  /** The loop over one answer of the server. It ends early, with the page full, or has taken every
      object of the answer. */
  method TakeObjects(contents: seq<S3Object>, truncated: bool, files: seq<StoredFile>, pageSize: nat,
                     classify: Classifier,
                     ghost matching: seq<S3Object>, ghost start: nat)
    returns (more: seq<StoredFile>, exhausted: bool)
    requires start <= |matching| && contents <= matching[start..]
    requires files == Supported(matching[..start], classify) && |files| < pageSize
    ensures |more| <= pageSize
    ensures |more| < pageSize ==> more == Supported(matching[..start + |contents|], classify)
    ensures |more| == pageSize ==>
              var needed := Needed(matching, classify, pageSize);
              && start < needed <= start + |contents|
              && more == Supported(matching[..needed], classify)
              && (exhausted <==> needed == start + |contents| && !truncated)
  {
    more, exhausted := files, false;
    for index := 0 to |contents|
      invariant |more| < pageSize && more == Supported(matching[..start + index], classify)
    {
      var object_ := contents[index];
      assert object_ == matching[start..][index] == matching[start + index];
      SupportedOneMore(matching, start + index, classify);
      var fileType := classify(object_.key);
      if fileType.Some? {
        more := more + [StoredFile(object_.key, object_.size, fileType.value)];
      }
      if |more| == pageSize {
        NeededAt(matching, classify, pageSize, start + index);
        exhausted := index == |contents| - 1 && !truncated;
        return;
      }
    }
  }

  /** `list_files`: collects one page of supported files, asking the server as often as needed. */
  method ListFiles(client: S3Client, prefix: string, cursor: Option<Key>, pageSize: nat, classify: Classifier)
    returns (page: FilePage)
    requires Bucket(client.objects)
    ensures page == PageAfter(Matching(client.objects, prefix, CursorKey(cursor)), classify, pageSize)
  {
    var files: seq<StoredFile> := [];
    var startAfter := CursorKey(cursor);
    var exhausted := false;
    ghost var matching, seen := Matching(client.objects, prefix, startAfter), 0;
    while |files| < pageSize && !exhausted
      invariant seen <= |matching| && files == Supported(matching[..seen], classify)
      invariant |files| <= pageSize
      invariant |files| < pageSize && !exhausted ==> Matching(client.objects, prefix, startAfter) == matching[seen..]
      invariant |files| < pageSize && exhausted ==> seen == |matching|
      invariant |files| == pageSize > 0 ==>
                  seen == Needed(matching, classify, pageSize) && (exhausted <==> seen == |matching|)
      decreases |matching| - seen, if exhausted then 0 else 1
    {
      var contents, truncated := client.ListObjects(prefix, pageSize, startAfter);
      files, exhausted := TakeObjects(contents, truncated, files, pageSize, classify, matching, seen);
      if |files| < pageSize {
        exhausted := !truncated || contents == [];
        seen := seen + |contents|;
        if contents != [] {
          startAfter := contents[|contents| - 1].key;
          assert contents[|contents| - 1] == matching[seen - 1];
          ResumeAfter(client.objects, prefix, CursorKey(cursor), seen - 1);
        }
      } else {
        seen := Needed(matching, classify, pageSize);
      }
    }
    assert matching[..|matching|] == matching;
    if |files| < pageSize {
      NeededAll(matching, classify, pageSize);
    }
    page := FilePage(files, if files != [] && !exhausted then Some(files[|files| - 1].key) else None);
  }

  // --- following the cursors ---

  /** A page that has a cursor is full, its cursor resumes right after it, and something is left. */
  lemma PageProgress(objects: seq<S3Object>, prefix: string, cursor: Option<Key>, classify: Classifier, pageSize: nat)
    requires Bucket(objects)
    ensures var matching := Matching(objects, prefix, CursorKey(cursor));
            var page := PageAfter(matching, classify, pageSize);
            var needed := Needed(matching, classify, pageSize);
            page.nextCursor.Some? ==>
              && |page.files| == pageSize > 0
              && 0 < needed < |matching|
              && Matching(objects, prefix, CursorKey(page.nextCursor)) == matching[needed..]
  {
    var matching := Matching(objects, prefix, CursorKey(cursor));
    var page := PageAfter(matching, classify, pageSize);
    var needed := Needed(matching, classify, pageSize);
    if page.nextCursor.Some? {
      LastNeeded(matching, classify, pageSize);
      ResumeAfter(objects, prefix, CursorKey(cursor), needed - 1);
      MatchingSorted(objects, prefix, CursorKey(cursor));
      assert matching[needed - 1] in matching;
    }
  }

  /** The last object that a full page needed is its last file. */
  lemma {:induction false} LastNeeded(objects: seq<S3Object>, classify: Classifier, n: nat)
    requires n > 0 && Needed(objects, classify, n) > 0
    requires |Supported(objects[..Needed(objects, classify, n)], classify)| == n
    ensures Supported(objects[..Needed(objects, classify, n)], classify)[n - 1].key ==
            objects[Needed(objects, classify, n) - 1].key
  {
    var needed := Needed(objects, classify, n);
    var rest := objects[1..];
    assert objects[..needed][1..] == rest[..needed - 1];
    if classify(objects[0].key).Some? {
      if n > 1 {
        LastNeeded(rest, classify, n - 1);
      } else {
        assert needed == 1;
      }
    } else {
      LastNeeded(rest, classify, n);
    }
  }

  /** The pages a client sees that starts at `cursor` and follows the cursors to the end. */
  function Pages(objects: seq<S3Object>, prefix: string, cursor: Option<Key>, classify: Classifier, pageSize: nat):
    seq<FilePage>
    requires Bucket(objects)
    decreases |Matching(objects, prefix, CursorKey(cursor))|
  {
    var page := PageAfter(Matching(objects, prefix, CursorKey(cursor)), classify, pageSize);
    PageProgress(objects, prefix, cursor, classify, pageSize);
    if page.nextCursor.None? then [page] else [page] + Pages(objects, prefix, page.nextCursor, classify, pageSize)
  }

  function Files(pages: seq<FilePage>): seq<StoredFile> {
    if pages == [] then [] else pages[0].files + Files(pages[1..])
  }

  /** Pages as a client sees them: all but the last are full and have a cursor. */
  predicate FullButLast(pages: seq<FilePage>, pageSize: nat) {
    && pages != []
    && pages[|pages| - 1].nextCursor.None?
    && forall i | 0 <= i < |pages| - 1 :: pages[i].nextCursor.Some? && |pages[i].files| == pageSize
  }

  lemma {:induction false} PagesAreFull(objects: seq<S3Object>, prefix: string, cursor: Option<Key>,
                                        classify: Classifier, pageSize: nat)
    requires Bucket(objects)
    ensures FullButLast(Pages(objects, prefix, cursor, classify, pageSize), pageSize)
    decreases |Matching(objects, prefix, CursorKey(cursor))|
  {
    var page := PageAfter(Matching(objects, prefix, CursorKey(cursor)), classify, pageSize);
    PageProgress(objects, prefix, cursor, classify, pageSize);
    if page.nextCursor.Some? {
      PagesAreFull(objects, prefix, page.nextCursor, classify, pageSize);
    }
  }

  lemma {:induction false} FullPagesCount(pages: seq<FilePage>, pageSize: nat)
    requires FullButLast(pages, pageSize)
    ensures pageSize * (|pages| - 1) <= |Files(pages)|
  {
    if |pages| > 1 {
      var rest := pages[1..];
      assert rest[|rest| - 1] == pages[|pages| - 1];
      FullPagesCount(rest, pageSize);
      assert pageSize * (|pages| - 1) == pageSize * (|rest| - 1) + pageSize;
    }
  }

  /** Following the cursors reproduces the filtered listing. */
  lemma {:induction false} PagesFrom(objects: seq<S3Object>, prefix: string, cursor: Option<Key>, classify: Classifier,
                                     pageSize: nat)
    requires Bucket(objects) && pageSize >= 1
    ensures Files(Pages(objects, prefix, cursor, classify, pageSize)) ==
            Supported(Matching(objects, prefix, CursorKey(cursor)), classify)
    decreases |Matching(objects, prefix, CursorKey(cursor))|
  {
    var matching := Matching(objects, prefix, CursorKey(cursor));
    var needed := Needed(matching, classify, pageSize);
    var page := PageAfter(matching, classify, pageSize);
    PageProgress(objects, prefix, cursor, classify, pageSize);
    assert matching == matching[..needed] + matching[needed..];
    SupportedJoins(matching[..needed], matching[needed..], classify);
    if page.nextCursor.None? {
      assert [page][1..] == [] && Files([page]) == page.files;
      LastPageTakesAll(matching, classify, pageSize);
    } else {
      PagesFrom(objects, prefix, page.nextCursor, classify, pageSize);
      var others := Pages(objects, prefix, page.nextCursor, classify, pageSize);
      assert ([page] + others)[1..] == others;
    }
  }

  /** A page without a cursor leaves no supported file behind. */
  lemma {:induction false} LastPageTakesAll(objects: seq<S3Object>, classify: Classifier, n: nat)
    requires n >= 1 && PageAfter(objects, classify, n).nextCursor.None?
    ensures Supported(objects[Needed(objects, classify, n)..], classify) == []
  {
    if Needed(objects, classify, n) < |objects| {
      NeededFull(objects, classify, n);
    }
  }

  lemma {:induction false} NeededFull(objects: seq<S3Object>, classify: Classifier, n: nat)
    requires Needed(objects, classify, n) < |objects|
    ensures |Supported(objects[..Needed(objects, classify, n)], classify)| == n
  {
    if n > 0 {
      var rest := objects[1..];
      assert objects[..Needed(objects, classify, n)][1..] == rest[..Needed(objects, classify, n) - 1];
      NeededFull(rest, classify, if classify(objects[0].key).Some? then n - 1 else n);
    }
  }

  /** Following `list_files` from the start to the last page yields exactly the supported files
      under the prefix, in key order and each once, in at most n / pageSize + 1 pages. */
  lemma EveryFileOnce(objects: seq<S3Object>, prefix: string, classify: Classifier, pageSize: nat)
    requires Bucket(objects) && pageSize >= 1
    ensures var pages := Pages(objects, prefix, None, classify, pageSize);
            var files := Files(pages);
            && FullButLast(pages, pageSize)
            && files == Supported(Matching(objects, prefix, ""), classify)
            && (forall i, j | 0 <= i < j < |files| :: Below(files[i].key, files[j].key))
            && (forall f :: f in files <==> IsListed(objects, prefix, classify, f))
            && |pages| <= |files| / pageSize + 1
  {
    var pages := Pages(objects, prefix, None, classify, pageSize);
    PagesAreFull(objects, prefix, None, classify, pageSize);
    FullPagesCount(pages, pageSize);
    PagesFrom(objects, prefix, None, classify, pageSize);
    MatchingSorted(objects, prefix, "");
    SupportedSorted(Matching(objects, prefix, ""), classify);
    forall f ensures f in Files(pages) <==> IsListed(objects, prefix, classify, f) {
      SupportedIn(Matching(objects, prefix, ""), classify, f);
      MatchingIn(objects, prefix, "", S3Object(f.key, f.size));
    }
    QuotientBound(|pages| - 1, pageSize, |Files(pages)|);
  }

  /** The file is an object under the prefix, with its type. */
  predicate IsListed(objects: seq<S3Object>, prefix: string, classify: Classifier, f: StoredFile) {
    S3Object(f.key, f.size) in objects && HasPrefix(f.key, prefix) && classify(f.key) == Some(f.fileType)
  }

  lemma {:induction false} SupportedIn(objects: seq<S3Object>, classify: Classifier, f: StoredFile)
    ensures f in Supported(objects, classify) <==>
            S3Object(f.key, f.size) in objects && classify(f.key) == Some(f.fileType)
  {
    if objects != [] {
      SupportedIn(objects[1..], classify, f);
      assert objects == [objects[0]] + objects[1..];
    }
  }

  lemma {:induction false} SupportedSorted(objects: seq<S3Object>, classify: Classifier)
    requires Sorted(objects)
    ensures var files := Supported(objects, classify);
            forall i, j | 0 <= i < j < |files| :: Below(files[i].key, files[j].key)
  {
    if objects != [] {
      var rest := Supported(objects[1..], classify);
      SupportedSorted(objects[1..], classify);
      forall f | f in rest ensures Below(objects[0].key, f.key) {
        SupportedIn(objects[1..], classify, f);
        var i :| 0 <= i < |objects[1..]| && objects[1..][i] == S3Object(f.key, f.size);
        assert objects[i + 1].key == f.key;
      }
      var files := Supported(objects, classify);
      if files != rest {
        forall i, j | 0 <= i < j < |files| ensures Below(files[i].key, files[j].key) {
          assert files[j] == rest[j - 1];
        }
      }
    }
  }

  lemma QuotientBound(k: nat, size: nat, n: nat)
    requires size >= 1 && size * k <= n
    ensures k <= n / size
  {
    var q := n / size;
    assert n < size * (q + 1);
    ProductsOrdered(size, q + 1, k);
  }

  lemma ProductsOrdered(size: nat, a: nat, b: nat)
    ensures a <= b ==> size * a <= size * b
  {
  }

  // --- one page ---

  lemma {:induction false} SupportedMost(objects: seq<S3Object>, classify: Classifier, n: nat)
    ensures var all := Supported(objects, classify);
            Supported(objects[..Needed(objects, classify, n)], classify) == if |all| < n then all else all[..n]
  {
    if n > 0 && objects != [] {
      var rest := objects[1..];
      var m := if classify(objects[0].key).Some? then n - 1 else n;
      SupportedMost(rest, classify, m);
      assert objects[..Needed(objects, classify, n)][1..] == rest[..Needed(rest, classify, m)];
      assert objects[..Needed(objects, classify, n)][0] == objects[0];
    } else if objects == [] {
      assert objects[..0] == [];
    }
  }

  /** A page holds the first `page_size` supported files after the cursor, or all there are; it has a
      cursor, the key of its last file, exactly when it is full and an object follows that file. */
  lemma PageExactly(objects: seq<S3Object>, prefix: string, cursor: Option<Key>, classify: Classifier, pageSize: nat)
    requires Bucket(objects) && pageSize >= 1
    ensures var matching := Matching(objects, prefix, CursorKey(cursor));
            var all := Supported(matching, classify);
            var page := PageAfter(matching, classify, pageSize);
            && page.files == (if |all| < pageSize then all else all[..pageSize])
            && (page.nextCursor.Some? <==>
                |page.files| == pageSize && exists o | o in matching :: Below(page.files[pageSize - 1].key, o.key))
            && (page.nextCursor.Some? ==> page.nextCursor.value == page.files[pageSize - 1].key)
  {
    MatchingSorted(objects, prefix, CursorKey(cursor));
    FilesOfPage(Matching(objects, prefix, CursorKey(cursor)), classify, pageSize);
    CursorOfPage(Matching(objects, prefix, CursorKey(cursor)), classify, pageSize);
  }

  lemma FilesOfPage(matching: seq<S3Object>, classify: Classifier, pageSize: nat)
    ensures var all := Supported(matching, classify);
            PageAfter(matching, classify, pageSize).files == if |all| < pageSize then all else all[..pageSize]
  {
    SupportedMost(matching, classify, pageSize);
  }

  lemma CursorOfPage(matching: seq<S3Object>, classify: Classifier, pageSize: nat)
    requires Sorted(matching) && pageSize >= 1
    ensures var page := PageAfter(matching, classify, pageSize);
            && (page.nextCursor.Some? <==>
                |page.files| == pageSize && exists o | o in matching :: Below(page.files[pageSize - 1].key, o.key))
            && (page.nextCursor.Some? ==> page.nextCursor.value == page.files[pageSize - 1].key)
  {
    var needed := Needed(matching, classify, pageSize);
    if |Supported(matching[..needed], classify)| == pageSize {
      LastNeeded(matching, classify, pageSize);
      NothingAfterLast(matching, needed - 1);
    }
  }

  /** In a sorted listing something lies above an object exactly when it is not the last one. */
  lemma NothingAfterLast(sorted: seq<S3Object>, i: nat)
    requires Sorted(sorted) && i < |sorted|
    ensures (exists o | o in sorted :: Below(sorted[i].key, o.key)) <==> i + 1 < |sorted|
  {
    if i + 1 < |sorted| {
      assert sorted[i + 1] in sorted && Below(sorted[i].key, sorted[i + 1].key);
    }
    if o :| o in sorted && Below(sorted[i].key, o.key) {
      var k :| 0 <= k < |sorted| && sorted[k] == o;
      if k < i {
        NotBothBelow(o.key, sorted[i].key);
      } else if k == i {
        BelowIrreflexive(o.key);
      }
    }
  }
}
