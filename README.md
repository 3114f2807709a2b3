# listFilesInFolder, modelled in Dafny

This project models `listFilesInFolder`, the function that lists the files of
one folder of an S3 bucket. It pages through ListObjectsV2 responses and
forwards the continuation token while the listing is truncated. It keeps the
keys that are neither the folder itself nor sub-folder markers (keys ending in
'/'), strips the folder path from them and returns the names in ascending
order. If any request fails, it rethrows that error.

Files:

- `js_string.dfy` (module `JsString`): JavaScript strings as UTF-16 code-unit
  sequences, with `endsWith`, `startsWith` and `substring`, and the string `<`
  that a comparator-less `Array.prototype.sort` uses. `Below` is `<=`. It is
  tied to the ECMAScript IsLessThan definition (`LessThan`) and proved to be a
  total order.
- `js_sort.dfy` (module `JsSort`): `sort()` on an array of strings, as an
  in-place sort whose contract is "ascending and a permutation". Any two
  results meeting that contract are equal (`SortedUnique`).
- `s3files.dfy` (module `S3Files`): the listing loop, the per-page filter, the
  two sorts and the `map`, plus the properties proved about them.
- `listing_examples.dfy` (module `S3FilesExamples`): concrete listings worked
  through the model, including one with a rejected second page.

The storage service is an input: `service[i]` is the reply to the i-th request
the loop sends. A reply is either a page (`Received`) or the exception that
`s3Client.send` throws (`Rejected`). The requests the loop sends are an output,
so the token sequencing can be stated. The precondition `Finishes(service)`
says that some reply ends the loop: a rejection or an untruncated page.

Two facts about the code follow from the proofs:

- The first sort (line 47) has no effect on the result. The second sort
  returns the same array whatever order the keys arrived in, because two
  sorted permutations of one multiset are equal. This does not depend on every
  key starting with the folder path.
- The names property holds without the folder path ending in '/'. If every
  key starts with the folder path, every name is non-empty and has no trailing
  '/'.

One behaviour of the code is reproduced as written. When a truncated page has
an absent or empty `NextContinuationToken` (src/s3files.js:26, 42-43), the
next request goes out without a token. The listing then starts again from the
first page. Against a real service this would repeat keys or never end.

## Model

| member | source | states |
|---|---|---|
| S3Files.ListFilesInFolder | src/s3files.js:11-57 | Requests go out up to and including the first reply that ends the loop (a rejection or an untruncated page), and no further. The i-th request is `Sent(...)[i]`. The call throws exactly when that last reply is a rejection, and then with its error and no names. Otherwise the names are ascending and equal, with multiplicity, to the kept keys of every page received, folder path stripped. |
| S3Files.PushKept | src/s3files.js:33-40 | The keys after one page are the keys before it followed by that page's kept keys, in listing order. An absent `Contents` adds nothing. |
| S3Files.SortAndStrip | src/s3files.js:46-50 | The names are ascending and a permutation of the kept keys with the folder path removed from each. |
| S3Files.TokenToSend | src/s3files.js:26-28 | A token goes on the request exactly when the previous page's token is truthy (present and non-empty), and then it is that token unchanged. |
| S3Files.SentRequests | src/s3files.js:16-30 | Every request names the bucket, has the folder path as prefix and '/' as delimiter. The first carries no token. Request i > 0 carries reply i-1's `NextContinuationToken` exactly when that token is truthy. |
| S3Files.ListCountedPages | src/s3files.js:13-44 | If the first N replies are pages and only the N-th is untruncated, the call sends exactly N requests, the i-th being `Sent(...)[i]`, and resolves with names. |
| S3Files.FilteredCount | src/s3files.js:34-39 | A key appears among the kept keys as often as it is listed if it is neither the folder path nor ends in '/', and otherwise never. |
| S3Files.FilteredMember | src/s3files.js:34-39 | A key is kept if and only if it is listed, differs from the folder path, and does not end in '/'. |
| S3Files.FilteredConcat | src/s3files.js:33-40 | Filtering two key lists one after the other keeps the same keys, in the same order, as filtering them joined. |
| S3Files.KeptAfterPage | src/s3files.js:23-43 | The kept keys of the first n+1 pages are those of the first n pages followed by those of page n+1. |
| S3Files.AbsentContentsAddNothing | src/s3files.js:33 | Removing a page without `Contents` from the replies leaves all collected keys unchanged. |
| S3Files.NamesAreFiles | src/s3files.js:36-49 | If every listed key starts with the folder path, every returned name is non-empty and does not end in '/'. |
| S3Files.PresortIsRedundant | src/s3files.js:47-50 | Sorting the keys before the `map` gives the same final array as not sorting them. |
| S3Files.StripAllAt | src/s3files.js:48-49 | `map` keeps the length, and name i is key i with its first `folderPath.length` code units removed. |
| S3Files.StripAllPermutation | src/s3files.js:47-49 | `map` applied to a permutation of the keys gives a permutation of the names. |
| JsString.Substring | src/s3files.js:49 | `substring(start)` is a suffix of the string and is `start` code units shorter. A start past the end gives "". |
| JsString.SubstringAfterPrefix | src/s3files.js:49 | For a key that starts with the folder path, the folder path followed by the name is the key again. |
| JsString.BelowIsLessThanOrEqual | src/s3files.js:47-50 | The code-unit comparison the model uses is exactly ECMAScript's string `<`, or equality. |
| JsString.BelowTotal | src/s3files.js:47-50 | Any two strings are comparable. |
| JsString.BelowAntisymmetric | src/s3files.js:47-50 | Two strings each `<=` the other are equal. |
| JsString.BelowTransitive | src/s3files.js:47-50 | The string order is transitive. |
| JsString.BelowReflexive | src/s3files.js:47-50 | Every string is `<=` itself. |
| JsSort.Sort | src/s3files.js:47 | The in-place sort leaves the array ascending and a permutation of what it held. |
| JsSort.SortedUnique | src/s3files.js:47-50 | Two ascending arrays holding the same strings with the same multiplicities are equal, so the result of `sort()` is determined. |
| S3FilesExamples.OnePageWithMarkers | src/s3files.js:33-50 | For folder "reports/2024/" and one page listing the folder marker, "reports/2024/a.pdf" and "reports/2024/sub/", the only name is "a.pdf". |
| S3FilesExamples.TwoPagesSorted | src/s3files.js:23-50 | For folder "x/", with "x/b.txt" on page one and "x/a.txt" on page two, the names are ["a.txt", "b.txt"], not in listing order. |
| S3FilesExamples.ListOnePage | src/s3files.js:11-57 | That one-page listing sends a single request without a token and returns ["a.pdf"]. |
| S3FilesExamples.ListTwoPages | src/s3files.js:11-57 | That two-page listing sends two requests, the second carrying the first page's token "t1", and returns ["a.txt", "b.txt"]. |
| S3FilesExamples.ListRejectedSecondPage | src/s3files.js:53-56 | When the second request is rejected, the call throws that error and nothing after it is sent. The names of the first page are discarded. |

## Left out

- `genSignedUrl` (src/s3files.js:59 onwards) only forwards to the AWS presigner, which is a call into code outside this model.
- The `S3Client` construction and the `AWS_REGION` environment read (src/s3files.js:1-3) are left out. Requests are values, and the service's replies are an input sequence.
- The `await` on the network call is left out: the model has no asynchrony or concurrency. A service that keeps answering truncated pages forever cannot be given as a finite sequence. `Finishes` therefore requires that some reply ends the loop, and a listing that never ends is not modelled.
- `console.error` logging (src/s3files.js:54) is left out: it is output only and does not change the result.
- The service's own filtering is not modelled: how it treats `Prefix` and `Delimiter` when building a page. The model gives the page contents as input, so a key that does not start with the folder path can appear. In that case, `NamesAreFiles`'s premise is false.
- JsSort.Sort: the engine's own sort algorithm is not modelled, only its contract. Insertion sort stands in for it. By `SortedUnique`, every algorithm meeting the contract gives the same array.
- `IsTruncated` is a `bool`, and an absent value (`undefined`) is `false`, which is how `while` reads it.
- An S3 object is reduced to its `Key`, and an error to an opaque message. The code reads nothing else from either.
- ListObjectsV2 fields the code never reads (`KeyCount`, `CommonPrefixes`, `MaxKeys`) are left out.
