/**
 * `VKPhotoDownloader.get_links` (backup.py:44-81) once the HTTP call has
 * answered: resolving each photo's largest size, sorting by like-count,
 * renaming, and appending the owner and album ids.
 */
module Downloader {
  import opened Wrappers
  import opened Records
  import Sizes
  import Sorting
  import Filenames

  /** One element of `response['items']`: like-count, timestamp and size variants. */
  datatype Item = Item(likes: nat, date: int, sizes: seq<Sizes.Variant>)

  /** The exceptions `get_links` does not catch while resolving an item. */
  datatype Fault =
    | UnknownSizeTag(tag: string)  // `KeyError` from the rank table
    | NoSizes                      // `IndexError` from `sizes[-1]`

  /** What `get_links` gives back: the batch list, `None`, or an exception. */
  datatype Links = Batch(data: seq<Entry>) | NoBatch | Raised(fault: Fault)

  /** Why resolving `item` raises, if it does: sorting looks every tag up first, then `sizes[-1]` is read. */
  function ItemFault(item: Item): (r: Option<Fault>)
    ensures r == Some(NoSizes) <==> item.sizes == []
    ensures r.None? ==> item.sizes != []
  {
    match Sizes.FirstUnknown(item.sizes)
    case Some(t) => Some(UnknownSizeTag(t))
    case None => if item.sizes == [] then Some(NoSizes) else None
  }

  /**
   * An item resolves exactly when it has a size variant and every tag is in
   * the table; an empty `sizes` raises `IndexError` and nothing else does;
   * an unknown tag raises `KeyError` for the first unknown tag.
   */
  lemma ItemFaultCases(item: Item)
    ensures ItemFault(item).None? <==> item.sizes != [] && Sizes.AllKnown(item.sizes)
    ensures ItemFault(item) == Some(NoSizes) <==> item.sizes == []
    ensures ItemFault(item).Some? && ItemFault(item).value.UnknownSizeTag? <==> !Sizes.AllKnown(item.sizes)
  {
  }

  /** The exception of the first item that raises one, if any. */
  function FirstFault(items: seq<Item>): (r: Option<Fault>)
    ensures r.None? <==> forall i :: 0 <= i < |items| ==> ItemFault(items[i]).None?
    decreases |items|
  {
    if items == [] then None
    else if ItemFault(items[0]).Some? then ItemFault(items[0])
    else
      var r := FirstFault(items[1..]);
      assert forall i :: 1 <= i < |items| ==> items[i] == items[1..][i - 1];
      r
  }

  /** `FirstFault` of a suffix, one item at a time. */
  lemma FirstFaultFrom(items: seq<Item>, i: nat)
    requires i < |items|
    ensures FirstFault(items[i..]) == if ItemFault(items[i]).Some? then ItemFault(items[i])
                                      else FirstFault(items[i + 1..])
  {
    assert items[i..][1..] == items[i + 1..];
  }

  /** The photo record built from an item: its like-count and date, and the url and type of its `Best` variant. */
  function ResolveItem(item: Item): (p: Photo)
    requires ItemFault(item).None?
    ensures p.fileName == Count(item.likes) && p.date == item.date
  {
    ItemFaultCases(item);
    var v := Sizes.Best(item.sizes);
    Photo(Count(item.likes), v.url, v.tag, item.date)
  }

  /** The url and type a photo record carries come from one variant of the item with the largest rank. */
  lemma ResolveItemLargest(item: Item)
    requires ItemFault(item).None?
    ensures exists k :: 0 <= k < |item.sizes|
                        && ResolveItem(item).url == item.sizes[k].url && ResolveItem(item).tag == item.sizes[k].tag
                        && forall i :: 0 <= i < |item.sizes| ==>
                             Sizes.Rank(item.sizes[i].tag).value <= Sizes.Rank(item.sizes[k].tag).value
  {
    ItemFaultCases(item);
    var v := Sizes.Best(item.sizes);
    var k :| 0 <= k < |item.sizes| && item.sizes[k] == v;
  }

  /** The photo records of `items`, in item order. */
  function Resolve(items: seq<Item>): (ps: seq<Photo>)
    requires forall i :: 0 <= i < |items| ==> ItemFault(items[i]).None?
    ensures |ps| == |items|
    decreases |items|
  {
    if items == [] then []
    else Resolve(items[..|items| - 1]) + [ResolveItem(items[|items| - 1])]
  }

  /** The j-th photo record is the one built from the j-th item. */
  lemma {:induction false} ResolveElements(items: seq<Item>)
    requires forall i :: 0 <= i < |items| ==> ItemFault(items[i]).None?
    ensures forall j :: 0 <= j < |items| ==> Resolve(items)[j] == ResolveItem(items[j])
    decreases |items|
  {
    if items != [] {
      var k := |items| - 1;
      ResolveElements(items[..k]);
      forall j | 0 <= j < k ensures Resolve(items)[j] == ResolveItem(items[j]) {
        assert items[..k][j] == items[j];
      }
    }
  }

  /** Resolving one more item appends its photo record. */
  lemma ResolveSnoc(items: seq<Item>, i: nat)
    requires i < |items| && forall h :: 0 <= h <= i ==> ItemFault(items[h]).None?
    ensures Resolve(items[..i + 1]) == Resolve(items[..i]) + [ResolveItem(items[i])]
  {
    assert items[..i + 1][..i] == items[..i];
  }

  /** The photos as elements of the batch list. */
  function Body(ps: seq<Photo>): (d: seq<Entry>)
    ensures |d| == |ps| && forall j :: 0 <= j < |ps| ==> d[j] == PhotoEntry(ps[j])
  {
    seq(|ps|, j requires 0 <= j < |ps| => PhotoEntry(ps[j]))
  }

  /** The photo records as `get_links` leaves them: sorted by like-count (backup.py:74), then renamed. */
  function Renamed(photos: seq<Photo>, dateOf: int -> string): seq<Photo>
  {
    Filenames.Disambiguate(Sorting.SortBy(photos, LikesKey), dateOf)
  }

  /** Sorting by like-count, renaming, and appending `[owner_id, album_id]` (backup.py:74-75). */
  function Assemble(ownerId: string, albumId: string, photos: seq<Photo>, dateOf: int -> string): seq<Entry>
  {
    Body(Renamed(photos, dateOf)) + [IdEntry(ownerId), IdEntry(albumId)]
  }

  /** Sorting keeps every photo record, so their number and their bare like-count names. */
  lemma SortedCounts(photos: seq<Photo>)
    requires Filenames.AllCounts(photos)
    ensures |Sorting.SortBy(photos, LikesKey)| == |photos|
    ensures Filenames.AllCounts(Sorting.SortBy(photos, LikesKey))
    ensures Sorting.SortedBy(Sorting.SortBy(photos, LikesKey), LikesKey)
  {
    var sorted := Sorting.SortBy(photos, LikesKey);
    Sorting.SortBySorted(photos, LikesKey);
    assert |sorted| == |photos| by {
      assert |multiset(sorted)| == |multiset(photos)|;
    }
    forall j | 0 <= j < |sorted| ensures sorted[j].fileName.Count? {
      assert sorted[j] in multiset(photos);
    }
  }

  /**
   * On success the list is the renamed photos followed by exactly the owner
   * id and the album id.
   */
  lemma BatchShape(ownerId: string, albumId: string, photos: seq<Photo>, dateOf: int -> string)
    requires Filenames.AllCounts(photos)
    ensures WellFormedBatch(Assemble(ownerId, albumId, photos, dateOf))
    ensures |Assemble(ownerId, albumId, photos, dateOf)| == |photos| + 2
    ensures Assemble(ownerId, albumId, photos, dateOf)[|photos|] == IdEntry(ownerId)
    ensures Assemble(ownerId, albumId, photos, dateOf)[|photos| + 1] == IdEntry(albumId)
    ensures forall j :: 0 <= j < |photos| ==>
              Assemble(ownerId, albumId, photos, dateOf)[j] == PhotoEntry(Renamed(photos, dateOf)[j])
  {
    SortedCounts(photos);
    var d := Renamed(photos, dateOf);
    var data := Assemble(ownerId, albumId, photos, dateOf);
    assert data == Body(d) + [IdEntry(ownerId), IdEntry(albumId)];
    forall j | 0 <= j < |photos| ensures data[j] == PhotoEntry(d[j]) { }
  }

  /**
   * The renamed photos are in ascending like-count order; each is the one at
   * its place in the stable sort, its name at most suffixed once with its
   * own date; and no bare like-count occurs twice.
   */
  lemma RenamedOrder(photos: seq<Photo>, dateOf: int -> string)
    requires Filenames.AllCounts(photos)
    ensures |Renamed(photos, dateOf)| == |photos|
    ensures forall j :: 0 <= j < |photos| ==>
              Renamed(photos, dateOf)[j] == Sorting.SortBy(photos, LikesKey)[j]
              || Renamed(photos, dateOf)[j] == Filenames.Suffix(Sorting.SortBy(photos, LikesKey)[j], dateOf)
    ensures Sorting.SortedBy(Renamed(photos, dateOf), LikesKey)
    ensures Filenames.BareNamesDistinct(Renamed(photos, dateOf))
  {
    var sorted := Sorting.SortBy(photos, LikesKey);
    SortedCounts(photos);
    var d := Renamed(photos, dateOf);
    Filenames.RenamedAtMostOnce(sorted, dateOf);
    Filenames.UnrenamedNamesDistinct(sorted, dateOf);
    forall i, j | 0 <= i < j < |d| ensures LikesKey(d[i]) <= LikesKey(d[j]) {
      assert LikesKey(d[i]) == LikesKey(sorted[i]) && LikesKey(d[j]) == LikesKey(sorted[j]);
    }
  }

  /** Every photo record `get_links` builds still carries its bare like-count. */
  lemma ResolvedAreCounts(items: seq<Item>)
    requires forall i :: 0 <= i < |items| ==> ItemFault(items[i]).None?
    ensures Filenames.AllCounts(Resolve(items))
  {
    ResolveElements(items);
  }

  /**
   * The loop over `response['items']` (backup.py:63-69): the photo records in
   * item order, or the exception the first unresolvable item raises.
   */
  method ResolveItems(items: seq<Item>) returns (fault: Option<Fault>, photos: seq<Photo>)
    ensures fault == FirstFault(items)
    ensures fault.None? ==> photos == Resolve(items)
  {
    photos := [];
    var i := 0;
    while i < |items|
      invariant i <= |items|
      invariant forall h :: 0 <= h < i ==> ItemFault(items[h]).None?
      invariant FirstFault(items) == FirstFault(items[i..])
      invariant photos == Resolve(items[..i])
    {
      FirstFaultFrom(items, i);
      fault := ItemFault(items[i]);
      if fault.Some? {
        return;
      }
      ResolveSnoc(items, i);
      photos := photos + [ResolveItem(items[i])];
      i := i + 1;
    }
    assert items[..i] == items;
    fault := None;
  }

  /** Sorting, renaming in place, and appending the ids (backup.py:74-75). */
  method AssembleBatch(ownerId: string, albumId: string, photos: seq<Photo>, dateOf: int -> string)
    returns (data: seq<Entry>)
    ensures data == Assemble(ownerId, albumId, photos, dateOf)
  {
    var sorted := Sorting.SortBy(photos, LikesKey);
    var a := new Photo[|sorted|](j requires 0 <= j < |sorted| reads {} => sorted[j]);
    assert a[..] == sorted;
    Filenames.EditFilename(a, dateOf);
    data := Body(a[..]) + [IdEntry(ownerId), IdEntry(albumId)];
  }

  /**
   * `get_links` after the request: `status` is the HTTP status code and
   * `response` the `response` member of the JSON body, `None` when absent.
   */
  method GetLinks(ownerId: string, albumId: string, status: int, response: Option<seq<Item>>,
                  dateOf: int -> string)
    returns (r: Links, log: seq<LogEntry>)
    ensures status != 200 || response.None? ==> r == NoBatch && log == [LogEntry(Error, "")]
    ensures status == 200 && response.Some? && FirstFault(response.value).Some? ==>
              r == Raised(FirstFault(response.value).value) && log == []
    ensures status == 200 && response.Some? && FirstFault(response.value).None? ==>
              r == Batch(Assemble(ownerId, albumId, Resolve(response.value), dateOf))
              && log == [LogEntry(Info, albumId)]
    ensures r.Batch? ==> WellFormedBatch(r.data) && |r.data| == |response.value| + 2
  {
    if status != 200 || response.None? {
      return NoBatch, [LogEntry(Error, "")];
    }
    var fault, photos := ResolveItems(response.value);
    if fault.Some? {
      return Raised(fault.value), [];
    }
    log := [LogEntry(Info, albumId)];
    ResolvedAreCounts(response.value);
    BatchShape(ownerId, albumId, photos, dateOf);
    var data := AssembleBatch(ownerId, albumId, photos, dateOf);
    r := Batch(data);
  }
}
