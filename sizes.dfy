/**
 * The size variants VK offers for a photo and the choice of the largest one
 * (`get_links`, backup.py:60-68).
 */
module Sizes {
  import opened Wrappers
  import Sorting

  /** One entry of a photo's `sizes` list. */
  datatype Variant = Variant(tag: string, url: string)

  /** The ten tags from smallest to largest. */
  const TagOrder: seq<string> := ["s", "m", "o", "p", "q", "r", "x", "y", "z", "w"]

  /** The rank table `sizes_ascending`, looked up by the tag's one letter. */
  function LetterRank(c: char): Option<int>
  {
    match c
    case 's' => Some(1)
    case 'm' => Some(2)
    case 'o' => Some(3)
    case 'p' => Some(4)
    case 'q' => Some(5)
    case 'r' => Some(6)
    case 'x' => Some(7)
    case 'y' => Some(8)
    case 'z' => Some(9)
    case 'w' => Some(10)
    case _ => None
  }

  /** Looking a tag up in `sizes_ascending`; `None` is Python's `KeyError`. */
  function Rank(tag: string): Option<int>
  {
    if |tag| == 1 then LetterRank(tag[0]) else None
  }

  /**
   * The table knows exactly the ten tags, and ranks them 1 to 10 in the
   * order s < m < o < p < q < r < x < y < z < w.
   */
  lemma RankTable(tag: string)
    ensures Rank(tag).Some? <==> tag in TagOrder
    ensures forall i :: 0 <= i < |TagOrder| && TagOrder[i] == tag ==> Rank(tag) == Some(i + 1)
  {
    if |tag| == 1 {
      assert tag == [tag[0]];
    }
  }

  /** The sort key applied to a variant; only used once every tag is known to the table. */
  function KeyOf(v: Variant): int
  {
    match Rank(v.tag)
    case Some(r) => r
    case None => 0
  }

  predicate AllKnown(sizes: seq<Variant>)
  {
    forall i :: 0 <= i < |sizes| ==> Rank(sizes[i].tag).Some?
  }

  /** The first tag of `sizes` the table does not know, which is the key lookup that raises. */
  function FirstUnknown(sizes: seq<Variant>): (r: Option<string>)
    ensures r.None? <==> AllKnown(sizes)
    decreases |sizes|
  {
    if sizes == [] then None
    else if Rank(sizes[0].tag).None? then Some(sizes[0].tag)
    else
      var r := FirstUnknown(sizes[1..]);
      assert forall i :: 1 <= i < |sizes| ==> sizes[i] == sizes[1..][i - 1];
      r
  }

  /** The tag `FirstUnknown` reports is unknown, and every tag listed before it is known. */
  lemma {:induction false} FirstUnknownIsFirst(sizes: seq<Variant>)
    requires FirstUnknown(sizes).Some?
    ensures exists i :: 0 <= i < |sizes| && sizes[i].tag == FirstUnknown(sizes).value
                        && Rank(sizes[i].tag).None? && AllKnown(sizes[..i])
    decreases |sizes|
  {
    if Rank(sizes[0].tag).None? {
      assert AllKnown(sizes[..0]);
    } else {
      FirstUnknownIsFirst(sizes[1..]);
      var i :| 0 <= i < |sizes[1..]| && sizes[1..][i].tag == FirstUnknown(sizes[1..]).value
               && Rank(sizes[1..][i].tag).None? && AllKnown(sizes[1..][..i]);
      assert sizes[..i + 1] == [sizes[0]] + sizes[1..][..i];
      assert sizes[i + 1] == sizes[1..][i];
    }
  }

  /**
   * The variant whose `url` and `type` the photo takes: the one that
   * `sizes.sort(key=...)` leaves last, i.e. the largest rank and, among equal
   * ranks, the one listed last.
   */
  function Best(sizes: seq<Variant>): (v: Variant)
    requires sizes != [] && AllKnown(sizes)
    ensures v in sizes && Rank(v.tag).Some?
    ensures forall i :: 0 <= i < |sizes| ==> Rank(sizes[i].tag).value <= Rank(v.tag).value
  {
    sizes[Sorting.LastMaxIndex(sizes, KeyOf)]
  }

  /**
   * `Best` is the element `sizes[-1]` reads after the stable sort by rank:
   * among variants of the largest rank, the one listed last.
   */
  lemma BestIsSortedLast(sizes: seq<Variant>)
    requires sizes != [] && AllKnown(sizes)
    ensures var sorted := Sorting.SortBy(sizes, KeyOf); Best(sizes) == sorted[|sorted| - 1]
    ensures exists k :: 0 <= k < |sizes| && sizes[k] == Best(sizes)
                        && forall i :: k < i < |sizes| ==> Rank(sizes[i].tag).value < Rank(Best(sizes).tag).value
  {
    Sorting.SortedLast(sizes, KeyOf);
    var k := Sorting.LastMaxIndex(sizes, KeyOf);
    assert sizes[k] == Best(sizes);
  }
}
