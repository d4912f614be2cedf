# course_backup: photo bookkeeping of `backup.py`

`backup.py` copies the photos of one VK album to Yandex Disk and to Google
Drive, and writes a JSON manifest. Between its HTTP calls it does some local
bookkeeping. This project models that bookkeeping in Dafny and proves what it
guarantees:

- **Choosing each photo's size.** `get_links` ranks a photo's size variants
  with the table `s < m < o < p < q < r < x < y < z < w`, sorts them, and
  keeps the url and type of the last one.
- **Packing the batch.** The photo records are sorted stably by like-count and
  renamed by `edit_filename`. Then the owner id and the album id are appended.
  A non-200 answer or a missing `response` gives no batch. An unknown size tag
  raises `KeyError`, and an item with no sizes raises `IndexError`.
- **Renaming.** `edit_filename` makes one forward pass over the list, in
  place. Two neighbours with equal `file_name` both get `(<dd-mm-yy>)`
  appended. A renamed name is a string and never equals an integer
  like-count, so runs of equal counts are paired off greedily from the left.
- **Naming destinations.** The folder is `id{owner}_{album}`. Each photo goes
  to `{folder}/{file_name}.jpg` on Yandex Disk, or becomes `{file_name}.jpg`
  inside the folder on Google Drive.
- **The manifest.** `make_json` builds one `{file_name, size}` record per
  photo.
- **Classifying answers.** Yandex Disk's status codes are sorted into info,
  warning and error log records; only the folder creation's 409 gives a
  warning. A Google Drive outcome gives an info record on success and an
  error record on `HttpError`.

Modules:

| module | file | contents |
|---|---|---|
| `Wrappers` | wrappers.dfy | `Option` |
| `Sorting` | sorting.dfy | Python's stable `list.sort(key=...)` as the insertion sort `SortBy`, and the element it leaves last |
| `Records` | records.dfy | `FileName`, `Photo`, batch entries, log records, `str(int)`, the folder name |
| `Sizes` | sizes.dfy | the size table and the best variant |
| `Filenames` | filenames.dfy | `edit_filename`: the array method, its specification `Disambiguate`, and the greedy reference `PairOff` |
| `Downloader` | downloader.dfy | `get_links` after its HTTP request |
| `Manifest` | manifest.dfy | the list `make_json` writes |
| `Uploaders` | uploaders.dfy | `YaUploader` and `GoogleUploader` after their HTTP or Drive calls |

Modelling choices:

- A `file_name` is `Count(likes)` or `Suffixed(base, date)`.
- Python's `==` on two names is `SameName`:
  - two integers compare as integers;
  - two strings compare by their rendered text;
  - an integer and a string are never equal.
- `datetime.fromtimestamp(t).strftime('%d-%m-%y')` depends on the local time
  zone. It is the function parameter `dateOf`.
- Each network answer is an input to the model:
  - status codes (`int`);
  - the decoded `response` member (`Option<seq<Item>>`);
  - the Drive folder id (`Option<string>`);
  - per-file success flags (`seq<bool>`).
- Log output is a returned `seq<LogEntry>`. Each entry holds a level and the
  album, folder or file it is about.

A run of three equal like-counts has its first two photos renamed and its
third left bare: once the second name is a string, it no longer equals the
third photo's integer. In general, every maximal run of equal like-counts is
renamed in pairs from its left end, and a run of odd length keeps its last
photo's bare count. `RunPairedFromLeft` states this.

## Model

| member | source | states |
|---|---|---|
| Sorting.SortBySorted | backup.py:74 | the result of `SortBy` is in ascending key order and is a permutation of the input |
| Sorting.SortByStable | backup.py:74 | for every key, `SortBy` keeps the elements with that key in their input order (the sort is stable) |
| Sorting.LastMaxIndex | backup.py:65-67 | the index of an element of greatest key, and every later element has a strictly smaller key |
| Sorting.SortedLast | backup.py:65-67 | the last element of the stably sorted list is the element at `LastMaxIndex`, and sorting keeps the length |
| Records.NatToString | backup.py:89-90 | `str(n)` is a non-empty string of decimal digits denoting `n`, with no leading zero |
| Records.RenderShape | backup.py:89-90 | a name's f-string text starts with the decimal like-count; an integer name is exactly those digits; in a renamed name the digits are followed by `(` and the text ends with `)` |
| Records.SameNameIsSameText | backup.py:85 | Python's `==` on two names holds exactly when their texts are equal (an integer never equals a string), and equal names come from the same like-count |
| Records.JpgNameParts | backup.py:130 | the stored name `{file_name}.jpg` ends in `.jpg`, dropping those four characters gives back the name's text, and it starts with the like-count |
| Records.FolderName | backup.py:124 | the folder name is `"id"`, then the owner id, then `_`, then the album id |
| Records.FolderNameInjective | backup.py:124 | for owner ids without `_`, equal folder names mean equal owner and album ids |
| Sizes.RankTable | backup.py:60-61 | a tag has a rank exactly when it is one of the ten tags, and the i-th tag of `s m o p q r x y z w` has rank i+1 |
| Sizes.FirstUnknown | backup.py:65 | there is a failing lookup exactly when some tag is missing from the table |
| Sizes.FirstUnknownIsFirst | backup.py:65 | the reported tag is missing from the table and every tag before it is known, so it is the lookup that raises `KeyError` |
| Sizes.Best | backup.py:64-68 | the chosen variant is one of the photo's variants, has a known rank, and no variant ranks higher |
| Sizes.BestIsSortedLast | backup.py:65-68 | the chosen variant is what `sizes[-1]` reads after the stable sort: a variant of greatest rank with only lower ranks after it |
| Filenames.Suffix | backup.py:86-90 | renaming appends `(date)` of the photo's own timestamp and keeps url, type, date and like-count |
| Filenames.Step | backup.py:85-90 | one iteration changes at most entries i and i+1, keeps every field except the name, and keeps the length |
| Filenames.Pass | backup.py:84-90 | the remaining iterations keep the length, leave the entries before i alone, and change only names |
| Filenames.Disambiguate | backup.py:83-92 | renaming keeps the length and order, and keeps each photo's url, type, date and like-count |
| Filenames.EditFilename | backup.py:83-92 | the in-place loop over the array leaves exactly `Disambiguate` of the original contents |
| Filenames.PairOff | backup.py:84-90 | greedy left pairing, the reference the loop is compared with, keeps the length of the list |
| Filenames.PairOffEntries | backup.py:84-90 | each entry of greedy left pairing is the photo unchanged or suffixed once with its own date |
| Filenames.PassPaired | backup.py:85-90 | two equal like-counts at the front are both renamed, and the loop then goes on from the third entry as if on a fresh list |
| Filenames.PassUnpaired | backup.py:85 | a first entry that differs from its neighbour is left alone, and the loop goes on from the second entry |
| Filenames.DisambiguateIsPairOff | backup.py:84-90 | on a list of like-counts, the loop equals greedy pairing from the left |
| Filenames.NoAdjacentDuplicates | backup.py:84-90 | after renaming, no two neighbours both keep the same bare like-count |
| Filenames.RenamedAtMostOnce | backup.py:85-90 | every final name is the like-count, or the like-count followed by `(` date `)` of that photo, and never suffixed twice |
| Filenames.EvenPart | backup.py:84-90 | the largest even number not above `m`: the number of photos of a run of length `m` that get renamed |
| Filenames.PairOffRunAt | backup.py:84-90 | in every maximal run `s[a..a+m]` of equal like-counts of any list of counts, greedy pairing renames exactly the first `EvenPart(m)` photos of the run |
| Filenames.RunPairedFromLeft | backup.py:84-90 | in every maximal run `s[a..a+m]` of equal like-counts of the list, the loop renames exactly the first `EvenPart(m)` photos, so an odd run keeps its last photo bare |
| Filenames.UnrenamedNamesDistinct | backup.py:74-90 | on a list sorted by like-count, the names left bare are pairwise different |
| Filenames.TwoSevens | backup.py:86-90 | two photos with 7 likes dated 01-01-23 and 02-01-23 become `7(01-01-23)` and `7(02-01-23)` |
| Filenames.SameDayNamesCollide | backup.py:86-90 | two photos with the same like-count taken on the same day still end up with equal names |
| Downloader.ItemFault | backup.py:64-67 | an item raises `IndexError` exactly when its `sizes` is empty, and an item that raises nothing has a size variant |
| Downloader.ItemFaultCases | backup.py:64-67 | an item resolves exactly when it has sizes and all its tags are known; `IndexError` is raised exactly when it has no sizes; `KeyError` exactly when a tag is unknown |
| Downloader.FirstFault | backup.py:63-67 | the loop over the items raises exactly when some item does not resolve |
| Downloader.FirstFaultFrom | backup.py:63-67 | the first fault from item i on is item i's own fault or else the first fault after it |
| Downloader.ResolveItem | backup.py:66-69 | the photo record takes the item's like-count as its name and the item's date |
| Downloader.ResolveItemLargest | backup.py:65-68 | the record's url and type come from the same variant of the item, and that variant has the greatest rank |
| Downloader.Resolve | backup.py:63-69 | one photo record per item |
| Downloader.ResolveElements | backup.py:63-69 | the j-th photo record is built from the j-th item |
| Downloader.ResolvedAreCounts | backup.py:66 | every freshly built name is a bare like-count |
| Downloader.SortedCounts | backup.py:74 | sorting keeps the number of photos and their bare like-count names, and orders them by like-count |
| Downloader.BatchShape | backup.py:74-75 | the batch is the renamed photos followed by exactly the owner id and then the album id, and its length is the photo count plus two |
| Downloader.RenamedOrder | backup.py:74-75 | the batch's photos are in ascending like-count order; each is the photo at its place in the stable sort, renamed at most once; bare names do not repeat |
| Downloader.ResolveItems | backup.py:63-69 | the loop raises the first item's fault, and otherwise produces the photo records of all items in order |
| Downloader.AssembleBatch | backup.py:74-75 | sorting, renaming the array in place, and appending the two ids give exactly `Assemble` |
| Downloader.GetLinks | backup.py:56-81 | a non-200 status or a missing `response` gives no batch and one error record; a bad item raises; otherwise the batch is well formed, has item count plus two entries, and one info record is logged |
| Manifest.MakeJson | backup.py:214-218 | one manifest record per photo, in batch order, with `<name>.jpg` and the photo's type, and none for the two ids |
| Uploaders.FolderLevel | backup.py:111-119 | creating the Yandex folder logs info exactly on 201, a warning exactly on 409, and an error on any other status |
| Uploaders.UploadLevel | backup.py:139-143 | an upload logs info exactly on 202 and an error otherwise |
| Uploaders.YaMakeFolder | backup.py:99-121 | the folder path comes back unchanged for every status, with one record about that path |
| Uploaders.StatusLevelsCount | backup.py:139-143 | the upload log holds one info record per 202 answer and one error record per other answer |
| Uploaders.OutcomeLevelsCount | backup.py:207-211 | the Drive upload log holds one info record per success and one error record per `HttpError` |
| Uploaders.YaUpload | backup.py:123-143 | folder `id{owner}_{album}` from the two ids; one request `{folder}/{name}.jpg` with the photo's url per photo, in order, and none for the ids; one log record per photo after the folder's, with the counts of info and error records |
| Uploaders.GoogleUpload | backup.py:190-211 | the same folder name; one file-creation request `{name}.jpg` per photo, in order, whose parent is the folder id, sent whether or not it succeeds; one log record per photo, info exactly when that upload succeeded |

## Left out

- The HTTP requests and the VK, Yandex Disk and Google Drive client libraries are not modelled. Their answers are inputs to the methods: status codes, the decoded `response` member, a folder id, and success flags.
- `GoogleUploader.__init__` is not modelled: the OAuth flow, the `token.json` cache and credential refresh belong to libraries outside this model.
- `GoogleUploader.make_folder` is not modelled beyond its outcome. The id Drive returns is an opaque input, and `None` stands for an `HttpError`.
- `get_albums_list` only prints, and is not modelled.
- The `json.dump` file write, the logging handler setup, `print`, and the interactive script body are I/O and are not modelled.
- The `count` and `extended` request parameters only shape the request, and are not modelled.
- A malformed JSON body, or an item missing `likes`, `date`, `sizes`, `type` or `url`, would raise in Python. The model's `Item` always carries these fields.
- `datetime.fromtimestamp(...).strftime('%d-%m-%y')` is the parameter `dateOf`, since its value depends on the local time zone.
- `dateOf` is a total function, but `datetime.fromtimestamp` raises on a timestamp outside the platform's range (backup.py:86-87). The model assumes every photo's timestamp converts.
- Exceptions other than `HttpError` during a Drive upload, such as a failing download of the photo, are not modelled.
- `None` from a failed `get_links` crashes `upload` and `make_json`. This is the precondition `WellFormedBatch` on `YaUpload`, `GoogleUpload` and `MakeJson`, not modelled behaviour.
- Both in-place `list.sort` calls are modelled by the pure function `Sorting.SortBy`, not by updating a list in place. Only `edit_filename`'s updates run on an array.
- Log records keep their level and subject but not their message text.
- The `None` that `get_links` returns on failure is one of three outcomes of `Links`: a batch, no batch, or the `KeyError` or `IndexError` a bad item raises.
