/**
 * `listFilesInFolder` from src/s3files.js: page through a ListObjectsV2
 * listing of one folder, keep the keys that are files directly in it, strip
 * the folder path from them and return the names in ascending order.
 *
 * The storage service is an input: `service[i]` is its reply to the i-th
 * request the loop sends, either a page or a rejection (the exception that
 * `s3Client.send` throws). The requests the loop sends are an output, so
 * that what is sent, and in which order, can be stated.
 */
module S3Files {
  import opened JsString
  import opened JsSort

  datatype Option<+T> = None | Some(value: T)

  /** The part of a ListObjectsV2 response the code reads. An absent `IsTruncated` is `false`. */
  datatype Page = Page(contents: Option<seq<Str>>, isTruncated: bool, nextContinuationToken: Option<Str>)

  datatype ServiceError = ServiceError(message: Str)

  /** What one `s3Client.send(command)` produces. */
  datatype Reply = Received(page: Page) | Rejected(error: ServiceError)

  /** The parameters of one ListObjectsV2Command. */
  datatype ListRequest = ListRequest(bucket: Str, prefix: Str, delimiter: Str, continuationToken: Option<Str>)

  /** The promise returned by `listFilesInFolder`: resolved with names, or rejected with the service's error. */
  datatype Outcome = Listed(fileNames: seq<Str>) | Threw(error: ServiceError)

  /** JavaScript truthiness of a token: `undefined` and `""` are falsy. */
  predicate Truthy(token: Option<Str>) {
    token.Some? && token.value != []
  }

  /** The token a request carries, given the one the previous page returned. */
  function TokenToSend(previous: Option<Str>): (sent: Option<Str>)
    ensures sent.Some? <==> Truthy(previous)
    ensures sent.Some? ==> sent == previous
  {
    if Truthy(previous) then previous else None
  }

  /** A key is kept unless it is the folder itself or a sub-folder marker. */
  predicate Keep(folderPath: Str, key: Str) {
    key != folderPath && !EndsWith(key, [Slash])
  }

  /** The kept keys of `keys`, in their order. */
  function Filtered(folderPath: Str, keys: seq<Str>): (kept: seq<Str>)
    decreases |keys|
  {
    if keys == [] then []
    else
      var last := keys[|keys| - 1];
      Filtered(folderPath, keys[..|keys| - 1]) + (if Keep(folderPath, last) then [last] else [])
  }

  /** The keys of a page; an absent `Contents` has none. */
  function ContentsOf(page: Page): (keys: seq<Str>) {
    if page.contents.Some? then page.contents.value else []
  }

  /** The first `n` replies are pages. */
  predicate AllReceived(service: seq<Reply>, n: int) {
    n <= |service| && forall i | 0 <= i < n :: service[i].Received?
  }

  /** Every key of the first `n` pages, in the order the pages and keys came. */
  function AllKeys(service: seq<Reply>, n: nat): (keys: seq<Str>)
    requires AllReceived(service, n)
  {
    if n == 0 then [] else AllKeys(service, n - 1) + ContentsOf(service[n - 1].page)
  }

  /** A reply after which the loop sends no further request. */
  predicate Ends(reply: Reply) {
    reply.Rejected? || !reply.page.isTruncated
  }

  /** The service eventually rejects a request or answers with an untruncated page. */
  predicate Finishes(service: seq<Reply>) {
    exists k | 0 <= k < |service| :: Ends(service[k])
  }

  /** The request the loop sends as its i-th. */
  function RequestFor(bucketName: Str, folderPath: Str, service: seq<Reply>, i: nat): (request: ListRequest)
    requires i < |service| && (i > 0 ==> service[i - 1].Received?)
  {
    ListRequest(bucketName, folderPath, [Slash],
                if i == 0 then None else TokenToSend(service[i - 1].page.nextContinuationToken))
  }

  /** The first `n` requests the loop sends. */
  function Sent(bucketName: Str, folderPath: Str, service: seq<Reply>, n: nat): (requests: seq<ListRequest>)
    requires n <= |service| && AllReceived(service, n - 1)
  {
    if n == 0 then [] else Sent(bucketName, folderPath, service, n - 1) + [RequestFor(bucketName, folderPath, service, n - 1)]
  }

  /**
   * The i-th request names the bucket, the folder path as prefix and '/' as
   * delimiter; the first carries no token, every later one carries the
   * previous page's `NextContinuationToken` exactly when that is truthy.
   */
  lemma {:induction false} SentRequests(bucketName: Str, folderPath: Str, service: seq<Reply>, n: nat, i: nat)
    requires n <= |service| && AllReceived(service, n - 1) && i < n
    ensures |Sent(bucketName, folderPath, service, n)| == n
    ensures var req := Sent(bucketName, folderPath, service, n)[i];
      && req.bucket == bucketName && req.prefix == folderPath && req.delimiter == [Slash]
      && (i == 0 ==> req.continuationToken == None)
      && (i > 0 ==> req.continuationToken == TokenToSend(service[i - 1].page.nextContinuationToken))
  {
    if i < n - 1 {
      SentRequests(bucketName, folderPath, service, n - 1, i);
    } else if n > 1 {
      SentLength(bucketName, folderPath, service, n - 1);
    }
  }

  lemma {:induction false} SentLength(bucketName: Str, folderPath: Str, service: seq<Reply>, n: nat)
    requires n <= |service| && AllReceived(service, n - 1)
    ensures |Sent(bucketName, folderPath, service, n)| == n
  {
    if n > 0 {
      SentLength(bucketName, folderPath, service, n - 1);
    }
  }

  /** `keys.map(key => key.substring(n))` */
  function StripAll(n: nat, keys: seq<Str>): (names: seq<Str>)
    decreases |keys|
  {
    if keys == [] then [] else [Substring(keys[0], n)] + StripAll(n, keys[1..])
  }

  lemma {:induction false} StripAllLength(n: nat, keys: seq<Str>)
    ensures |StripAll(n, keys)| == |keys|
    decreases |keys|
  {
    if keys != [] {
      StripAllLength(n, keys[1..]);
    }
  }

  /** The i-th name is the i-th key with its first `n` code units removed. */
  lemma {:induction false} StripAllAt(n: nat, keys: seq<Str>, i: nat)
    requires i < |keys|
    ensures |StripAll(n, keys)| == |keys|
    ensures StripAll(n, keys)[i] == Substring(keys[i], n)
    decreases |keys|
  {
    if i > 0 {
      StripAllAt(n, keys[1..], i - 1);
    } else if |keys| > 1 {
      StripAllAt(n, keys[1..], 0);
    }
  }

  /**
   * src/s3files.js:11-57. Requests are sent up to and including the first
   * one whose reply ends the loop, and no further; the i-th is `Sent(...)[i]`.
   * If that reply is a rejection the call rejects with its error and no
   * names. Otherwise the names are ascending and are, with multiplicity, the
   * kept keys of all pages with the folder path stripped.
   */
  method ListFilesInFolder(bucketName: Str, folderPath: Str, service: seq<Reply>)
    returns (outcome: Outcome, requests: seq<ListRequest>)
    requires Finishes(service)
    ensures 0 < |requests| <= |service|
    ensures forall j | 0 <= j < |requests| - 1 :: !Ends(service[j])
    ensures Ends(service[|requests| - 1])
    ensures requests == Sent(bucketName, folderPath, service, |requests|)
    ensures outcome.Threw? <==> service[|requests| - 1].Rejected?
    ensures outcome.Threw? ==> outcome.error == service[|requests| - 1].error
    ensures outcome.Listed? ==>
              && Sorted(outcome.fileNames)
              && multiset(outcome.fileNames)
                 == multiset(StripAll(|folderPath|, Filtered(folderPath, AllKeys(service, |requests|))))
  {
    ghost var stop :| 0 <= stop < |service| && Ends(service[stop]);
    var fileKeys: seq<Str> := [];
    var isTruncated := true;
    var continuationToken: Option<Str> := None;
    var n := 0;
    requests := [];
    while isTruncated
      invariant n <= |service| && |requests| == n
      invariant AllReceived(service, n)
      invariant forall j | 0 <= j < n - 1 :: !Ends(service[j])
      invariant isTruncated == (n == 0 || service[n - 1].page.isTruncated)
      invariant isTruncated ==> n <= stop
      invariant continuationToken == if n == 0 then None else service[n - 1].page.nextContinuationToken
      invariant requests == Sent(bucketName, folderPath, service, n)
      invariant fileKeys == Filtered(folderPath, AllKeys(service, n))
      decreases |service| - n
    {
      var commandParams := ListRequest(bucketName, folderPath, [Slash],
                                       if Truthy(continuationToken) then continuationToken else None);
      assert commandParams == RequestFor(bucketName, folderPath, service, n);
      requests := requests + [commandParams];
      var reply := service[n];
      if reply.Rejected? {
        outcome := Threw(reply.error);
        return;
      }
      var data := reply.page;
      fileKeys := PushKept(folderPath, fileKeys, data);
      KeptAfterPage(folderPath, service, n);
      isTruncated := data.isTruncated;
      continuationToken := data.nextContinuationToken;
      n := n + 1;
    }

    var fileNames := SortAndStrip(folderPath, fileKeys);
    outcome := Listed(fileNames);
  }

  /**
   * src/s3files.js:46-50: sort the kept keys in place, strip the folder path
   * from each, and sort the names. The names are ascending and, with
   * multiplicity, the stripped keys.
   */
  method SortAndStrip(folderPath: Str, fileKeys: seq<Str>) returns (fileNames: seq<Str>)
    ensures Sorted(fileNames)
    ensures multiset(fileNames) == multiset(StripAll(|folderPath|, fileKeys))
  {
    var keys := new Str[|fileKeys|](k requires 0 <= k < |fileKeys| => fileKeys[k]);
    assert keys[..] == fileKeys;
    Sort(keys);
    var stripped := StripAll(|folderPath|, keys[..]);
    var names := new Str[|stripped|](k requires 0 <= k < |stripped| => stripped[k]);
    assert names[..] == stripped;
    Sort(names);
    StripAllPermutation(|folderPath|, keys[..], fileKeys);
    fileNames := names[..];
  }

  /**
   * src/s3files.js:33-40: when the page has `Contents`, `forEach` pushes each
   * kept key onto `fileKeys`, in order.
   */
  method PushKept(folderPath: Str, fileKeys: seq<Str>, data: Page) returns (pushed: seq<Str>)
    ensures pushed == fileKeys + Filtered(folderPath, ContentsOf(data))
  {
    pushed := fileKeys;
    if data.contents.None? {
      return;
    }
    var items := data.contents.value;
    var j := 0;
    while j < |items|
      invariant 0 <= j <= |items|
      invariant pushed == fileKeys + Filtered(folderPath, items[..j])
    {
      var key := items[j];
      assert items[..j + 1][..j] == items[..j];
      if key != folderPath && !EndsWith(key, [Slash]) {
        pushed := pushed + [key];
      }
      j := j + 1;
    }
    assert items[..j] == items;
  }

  /** The kept keys of one more page follow those of the pages before it. */
  lemma KeptAfterPage(folderPath: Str, service: seq<Reply>, n: nat)
    requires AllReceived(service, n + 1)
    ensures AllReceived(service, n)
    ensures Filtered(folderPath, AllKeys(service, n + 1))
            == Filtered(folderPath, AllKeys(service, n)) + Filtered(folderPath, ContentsOf(service[n].page))
  {
    FilteredConcat(folderPath, AllKeys(service, n), ContentsOf(service[n].page));
  }

  /** Filtering distributes over concatenation. */
  lemma {:induction false} FilteredConcat(folderPath: Str, s: seq<Str>, t: seq<Str>)
    ensures Filtered(folderPath, s + t) == Filtered(folderPath, s) + Filtered(folderPath, t)
    decreases |t|
  {
    if t != [] {
      var u := t[..|t| - 1];
      assert (s + t)[..|s + t| - 1] == s + u;
      FilteredConcat(folderPath, s, u);
    } else {
      assert s + t == s;
    }
  }

  /** Removing one element from the input removes its image from the output. */
  lemma StripAllRemove(n: nat, t: seq<Str>, i: nat)
    requires i < |t|
    ensures multiset(StripAll(n, t))
            == multiset(StripAll(n, t[..i] + t[i + 1..])) + multiset{Substring(t[i], n)}
  {
    assert t == t[..i] + [t[i]] + t[i + 1..];
    StripAllConcat(n, t[..i] + [t[i]], t[i + 1..]);
    StripAllConcat(n, t[..i], [t[i]]);
    StripAllConcat(n, t[..i], t[i + 1..]);
  }

  /** `map` over a permutation is a permutation of the `map`. */
  lemma {:induction false} StripAllPermutation(n: nat, s: seq<Str>, t: seq<Str>)
    requires multiset(s) == multiset(t)
    ensures multiset(StripAll(n, s)) == multiset(StripAll(n, t))
    decreases |s|
  {
    if s == [] {
      assert |t| == |multiset(t)| == 0;
    } else {
      var i := MatchHead(s, t);
      var rest := t[..i] + t[i + 1..];
      StripAllPermutation(n, s[1..], rest);
      StripAllRemove(n, t, i);
      var name := Substring(s[0], n);
      assert multiset(StripAll(n, s)) == multiset{name} + multiset(StripAll(n, s[1..]));
      assert multiset(StripAll(n, t)) == multiset(StripAll(n, rest)) + multiset{name};
    }
  }

  /** Where the head of `s` sits in its permutation `t`, and that the rests are permutations. */
  lemma MatchHead<T>(s: seq<T>, t: seq<T>) returns (i: nat)
    requires s != [] && multiset(s) == multiset(t)
    ensures i < |t| && t[i] == s[0]
    ensures multiset(s[1..]) == multiset(t[..i] + t[i + 1..])
  {
    assert s[0] in multiset(t);
    i :| 0 <= i < |t| && t[i] == s[0];
    Cancel(s, t, i);
  }

  lemma Cancel<T>(s: seq<T>, t: seq<T>, i: nat)
    requires s != [] && i < |t| && t[i] == s[0] && multiset(s) == multiset(t)
    ensures multiset(s[1..]) == multiset(t[..i] + t[i + 1..])
  {
    RemoveAt(t, i);
    assert s == [s[0]] + s[1..];
    assert multiset(s[1..]) == multiset(s) - multiset{s[0]};
  }

  /** Removing the element at `i` removes one occurrence of it. */
  lemma RemoveAt<T>(t: seq<T>, i: nat)
    requires i < |t|
    ensures multiset(t[..i] + t[i + 1..]) == multiset(t) - multiset{t[i]}
  {
    assert t == t[..i] + [t[i]] + t[i + 1..];
  }

  lemma {:induction false} StripAllConcat(n: nat, s: seq<Str>, t: seq<Str>)
    ensures StripAll(n, s + t) == StripAll(n, s) + StripAll(n, t)
    decreases |s|
  {
    if s != [] {
      assert (s + t)[1..] == s[1..] + t;
      StripAllConcat(n, s[1..], t);
    } else {
      assert s + t == t;
    }
  }

  /**
   * src/s3files.js:35-36: a key reaches the result exactly as often as it is
   * listed if it is neither the folder itself nor ends in '/', and never
   * otherwise. Nothing kept is lost or duplicated.
   */
  lemma {:induction false} FilteredCount(folderPath: Str, keys: seq<Str>, key: Str)
    ensures multiset(Filtered(folderPath, keys))[key]
            == if Keep(folderPath, key) then multiset(keys)[key] else 0
    decreases |keys|
  {
    if keys != [] {
      var init := keys[..|keys| - 1];
      assert keys == init + [keys[|keys| - 1]];
      FilteredCount(folderPath, init, key);
    }
  }

  /** A key is among the kept ones exactly when it is listed and passes the filter. */
  lemma FilteredMember(folderPath: Str, keys: seq<Str>, key: Str)
    ensures key in Filtered(folderPath, keys) <==> key in keys && Keep(folderPath, key)
  {
    FilteredCount(folderPath, keys, key);
    assert key in Filtered(folderPath, keys) <==> multiset(Filtered(folderPath, keys))[key] > 0;
    assert key in keys <==> multiset(keys)[key] > 0;
  }

  /** The first `m` pages of two services that agree on them give the same keys. */
  lemma {:induction false} AllKeysPrefix(service: seq<Reply>, other: seq<Reply>, m: nat)
    requires AllReceived(service, m) && m <= |other| && other[..m] == service[..m]
    ensures AllReceived(other, m) && AllKeys(other, m) == AllKeys(service, m)
  {
    assert forall j | 0 <= j < m :: other[j] == other[..m][j] == service[..m][j] == service[j];
    if m > 0 {
      assert other[..m - 1] == other[..m][..m - 1] && service[..m - 1] == service[..m][..m - 1];
      AllKeysPrefix(service, other, m - 1);
    }
  }

  /**
   * src/s3files.js:33: a page whose `Contents` is absent adds nothing: the
   * keys of the first `n` pages are those of the same pages with page `i`
   * taken out.
   */
  lemma {:induction false} AbsentContentsAddNothing(service: seq<Reply>, n: nat, i: nat)
    requires AllReceived(service, n) && i < n && service[i].page.contents.None?
    ensures AllReceived(service[..i] + service[i + 1..], n - 1)
    ensures AllKeys(service[..i] + service[i + 1..], n - 1) == AllKeys(service, n)
    decreases n
  {
    var without := service[..i] + service[i + 1..];
    assert forall j | 0 <= j < n - 1 :: without[j] == if j < i then service[j] else service[j + 1];
    if n - 1 == i {
      assert without[..i] == service[..i];
      AllKeysPrefix(service, without, i);
      assert AllKeys(service, n) == AllKeys(service, i) + [];
    } else {
      AbsentContentsAddNothing(service, n - 1, i);
      assert without[n - 2] == service[n - 1];
    }
  }

  /**
   * src/s3files.js:36, 49: when every listed key starts with the folder path,
   * every name is non-empty and does not end in '/'. (The folder path does
   * not itself have to end in '/' for this.)
   */
  lemma NamesAreFiles(folderPath: Str, keys: seq<Str>)
    requires forall i | 0 <= i < |keys| :: StartsWith(keys[i], folderPath)
    ensures var names := StripAll(|folderPath|, Filtered(folderPath, keys));
      forall i | 0 <= i < |names| :: names[i] != [] && !EndsWith(names[i], [Slash])
  {
    var kept := Filtered(folderPath, keys);
    var names := StripAll(|folderPath|, kept);
    forall i | 0 <= i < |names| ensures names[i] != [] && !EndsWith(names[i], [Slash]) {
      StripAllLength(|folderPath|, kept);
      StripAllAt(|folderPath|, kept, i);
      FilteredMember(folderPath, keys, kept[i]);
      KeptNameIsFile(folderPath, kept[i]);
    }
  }

  /** The name of a kept key under the folder is non-empty and has no trailing '/'. */
  lemma KeptNameIsFile(folderPath: Str, key: Str)
    requires StartsWith(key, folderPath) && Keep(folderPath, key)
    ensures var name := Substring(key, |folderPath|); name != [] && !EndsWith(name, [Slash])
  {
    var name := Substring(key, |folderPath|);
    assert name[|name| - 1] == key[|key| - 1];
  }

  /**
   * src/s3files.js:47-50: the in-place sort before the `map` does not change
   * the result. The names sorted after stripping a permutation of the keys
   * are the names sorted after stripping the keys themselves.
   */
  lemma PresortIsRedundant(n: nat, keys: seq<Str>, presorted: seq<Str>, withPresort: seq<Str>, without: seq<Str>)
    requires multiset(presorted) == multiset(keys)
    requires Sorted(withPresort) && multiset(withPresort) == multiset(StripAll(n, presorted))
    requires Sorted(without) && multiset(without) == multiset(StripAll(n, keys))
    ensures withPresort == without
  {
    StripAllPermutation(n, presorted, keys);
    SortedUnique(withPresort, without);
  }

  /**
   * src/s3files.js:13, 23, 42: when the first `count` replies are pages and
   * only the last of them is untruncated, listing sends exactly `count`
   * requests, the i-th being `Sent(...)[i]`, and resolves with names.
   */
  method ListCountedPages(bucketName: Str, folderPath: Str, service: seq<Reply>, count: nat)
    returns (outcome: Outcome, requests: seq<ListRequest>)
    requires 0 < count <= |service| && AllReceived(service, count)
    requires forall j | 0 <= j < count - 1 :: service[j].page.isTruncated
    requires !service[count - 1].page.isTruncated
    ensures |requests| == count
    ensures requests == Sent(bucketName, folderPath, service, count)
    ensures outcome.Listed?
  {
    assert Ends(service[count - 1]);
    outcome, requests := ListFilesInFolder(bucketName, folderPath, service);
  }
}
