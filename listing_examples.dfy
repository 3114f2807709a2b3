/**
 * Worked listings: what `listFilesInFolder` returns for two small folders.
 * Keys are written as the folder path followed by the name.
 */
module S3FilesExamples {
  import opened JsString
  import opened JsSort
  import opened S3Files

  // The strings of the examples, as code units.
  const Reports2024: Str := [0x72, 0x65, 0x70, 0x6F, 0x72, 0x74, 0x73, 0x2F, 0x32, 0x30, 0x32, 0x34, 0x2F] // "reports/2024/"
  const APdf: Str := [0x61, 0x2E, 0x70, 0x64, 0x66] // "a.pdf"
  const SubDir: Str := [0x73, 0x75, 0x62, 0x2F]     // "sub/"
  const X: Str := [0x78, 0x2F]                      // "x/"
  const ATxt: Str := [0x61, 0x2E, 0x74, 0x78, 0x74] // "a.txt"
  const BTxt: Str := [0x62, 0x2E, 0x74, 0x78, 0x74] // "b.txt"
  const T1: Str := [0x74, 0x31]                     // "t1"

  /** A one-key list is kept or dropped as a whole. */
  lemma FilteredOne(folderPath: Str, key: Str)
    ensures Filtered(folderPath, [key]) == if Keep(folderPath, key) then [key] else []
  {
    assert [key][..0] == [];
  }

  /** A non-empty name without a trailing '/' under the folder is kept, and strips back to itself. */
  lemma FileUnder(folderPath: Str, name: Str)
    requires name != [] && name[|name| - 1] != Slash
    ensures Keep(folderPath, folderPath + name)
    ensures Substring(folderPath + name, |folderPath|) == name
  {
    var key := folderPath + name;
    assert key[|key| - 1] == name[|name| - 1];
    assert key[|folderPath|..] == name;
  }

  /** A key under the folder that ends in '/' is a sub-folder marker and is dropped. */
  lemma MarkerUnder(folder: Str, subFolder: Str)
    requires subFolder != [] && subFolder[|subFolder| - 1] == Slash
    ensures !Keep(folder, folder + subFolder)
  {
    var key := folder + subFolder;
    assert key[|key| - 1..] == [Slash];
  }

  /**
   * A page holding the folder marker, one file and one sub-folder marker
   * yields just the file's name.
   */
  lemma MarkersDropped(folder: Str, name: Str, subFolder: Str)
    requires name != [] && name[|name| - 1] != Slash
    requires subFolder != [] && subFolder[|subFolder| - 1] == Slash
    ensures StripAll(|folder|, Filtered(folder, [folder, folder + name, folder + subFolder])) == [name]
  {
    var file := folder + name;
    var sub := folder + subFolder;
    FileUnder(folder, name);
    MarkerUnder(folder, subFolder);
    KeptBetweenMarkers(folder, file, sub);
    assert StripAll(|folder|, [file]) == [Substring(file, |folder|)] + StripAll(|folder|, []);
  }

  /** Only the middle key of folder marker, kept key and dropped key survives. */
  lemma KeptBetweenMarkers(folder: Str, file: Str, sub: Str)
    requires Keep(folder, file) && !Keep(folder, sub)
    ensures Filtered(folder, [folder, file, sub]) == [file]
  {
    assert [folder][..0] == [];
    assert Filtered(folder, [folder]) == [];
    assert [folder, file][..1] == [folder];
    assert Filtered(folder, [folder, file]) == [file];
    assert [folder, file, sub][..2] == [folder, file];
  }

  /**
   * Folder "reports/2024/": one untruncated page holding the folder marker,
   * "reports/2024/a.pdf" and the sub-folder marker "reports/2024/sub/".
   */
  const OnePage: seq<Reply> :=
    [Received(Page(Some([Reports2024, Reports2024 + APdf, Reports2024 + SubDir]), false, None))]

  /** Of the three keys on that page only "a.pdf" is a file. */
  lemma OnePageNames()
    ensures AllReceived(OnePage, 1)
    ensures StripAll(|Reports2024|, Filtered(Reports2024, AllKeys(OnePage, 1))) == [APdf]
  {
    var keys := [Reports2024, Reports2024 + APdf, Reports2024 + SubDir];
    assert AllKeys(OnePage, 1) == [] + keys == keys;
    MarkersDropped(Reports2024, APdf, SubDir);
  }

  /** Whatever meets the listing's contract on that page is exactly ["a.pdf"]. */
  lemma OnePageWithMarkers(names: seq<Str>)
    requires AllReceived(OnePage, 1)
    requires Sorted(names)
    requires multiset(names) == multiset(StripAll(|Reports2024|, Filtered(Reports2024, AllKeys(OnePage, 1))))
    ensures names == [APdf]
  {
    OnePageNames();
    assert |names| == 1 && names[0] in multiset(names);
  }

  /** Two files under the folder, one key each, strip to their names in the same order. */
  lemma TwoFiles(folder: Str, first: Str, second: Str)
    requires first != [] && first[|first| - 1] != Slash
    requires second != [] && second[|second| - 1] != Slash
    ensures StripAll(|folder|, Filtered(folder, [folder + first] + [folder + second])) == [first, second]
  {
    FileUnder(folder, first);
    FileUnder(folder, second);
    FilteredOne(folder, folder + first);
    FilteredOne(folder, folder + second);
    FilteredConcat(folder, [folder + first], [folder + second]);
    assert [folder + first, folder + second][1..] == [folder + second];
    assert StripAll(|folder|, [folder + second]) == [second] + StripAll(|folder|, []);
  }

  /**
   * Folder "x/": "x/b.txt" on a truncated first page with token "t1", then
   * "x/a.txt" on the last page.
   */
  const TwoPages: seq<Reply> :=
    [Received(Page(Some([X + BTxt]), true, Some(T1))),
     Received(Page(Some([X + ATxt]), false, None))]

  /** Before sorting, the names are in the order the pages listed them. */
  lemma TwoPagesNames()
    ensures AllReceived(TwoPages, 2)
    ensures StripAll(|X|, Filtered(X, AllKeys(TwoPages, 2))) == [BTxt, ATxt]
  {
    assert AllKeys(TwoPages, 1) == [] + [X + BTxt] == [X + BTxt];
    assert AllKeys(TwoPages, 2) == [X + BTxt] + [X + ATxt];
    TwoFiles(X, BTxt, ATxt);
  }

  /** Whatever meets the listing's contract on those pages is ["a.txt", "b.txt"]: sorted, not in listing order. */
  lemma TwoPagesSorted(names: seq<Str>)
    requires AllReceived(TwoPages, 2)
    requires Sorted(names)
    requires multiset(names) == multiset(StripAll(|X|, Filtered(X, AllKeys(TwoPages, 2))))
    ensures names == [ATxt, BTxt]
  {
    TwoPagesNames();
    var expected := [ATxt, BTxt];
    assert Sorted(expected);
    assert multiset(expected) == multiset([BTxt, ATxt]);
    SortedUnique(names, expected);
  }

  /** The token of the first page goes out with the second request. */
  lemma TwoPagesRequests(bucketName: Str)
    ensures AllReceived(TwoPages, 1)
    ensures Sent(bucketName, X, TwoPages, 2)
            == [ListRequest(bucketName, X, [Slash], None), ListRequest(bucketName, X, [Slash], Some(T1))]
  {
    assert TokenToSend(Some(T1)) == Some(T1);
    assert Sent(bucketName, X, TwoPages, 1) == [] + [RequestFor(bucketName, X, TwoPages, 0)];
  }

  /** Listing "x/" over those pages: two requests, the second carrying "t1", and the sorted names. */
  method ListTwoPages(bucketName: Str) returns (outcome: Outcome, requests: seq<ListRequest>)
    ensures outcome == Listed([ATxt, BTxt])
    ensures requests == [ListRequest(bucketName, X, [Slash], None), ListRequest(bucketName, X, [Slash], Some(T1))]
  {
    assert !Ends(TwoPages[0]) && Ends(TwoPages[1]);
    outcome, requests := ListFilesInFolder(bucketName, X, TwoPages);
    assert |requests| == 2;
    TwoPagesSorted(outcome.fileNames);
    TwoPagesRequests(bucketName);
  }

  /** Listing "reports/2024/" over the one page: one request without a token, and ["a.pdf"]. */
  method ListOnePage(bucketName: Str) returns (outcome: Outcome, requests: seq<ListRequest>)
    ensures outcome == Listed([APdf])
    ensures requests == [ListRequest(bucketName, Reports2024, [Slash], None)]
  {
    assert Ends(OnePage[0]);
    outcome, requests := ListFilesInFolder(bucketName, Reports2024, OnePage);
    OnePageWithMarkers(outcome.fileNames);
    SentRequests(bucketName, Reports2024, OnePage, 1, 0);
  }

  /**
   * A first page listing "x/b.txt", then a rejection: the call throws that
   * error, the names of the first page are not returned, and no third request
   * is sent.
   */
  method ListRejectedSecondPage(bucketName: Str, error: ServiceError, later: seq<Reply>)
    returns (outcome: Outcome, requests: seq<ListRequest>)
    ensures outcome == Threw(error)
    ensures |requests| == 2
  {
    var service := [TwoPages[0], Rejected(error)] + later;
    assert !Ends(service[0]) && Ends(service[1]);
    outcome, requests := ListFilesInFolder(bucketName, X, service);
  }
}
