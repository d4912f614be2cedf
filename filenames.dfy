/**
 * `edit_filename` (backup.py:83-92): one forward pass over the sorted photos;
 * whenever a photo's `file_name` equals its right neighbour's, both get their
 * date appended as `"<name>(<dd-mm-yy>)"`.
 *
 * The date text comes from `datetime.fromtimestamp(...).strftime('%d-%m-%y')`,
 * which depends on the local time zone; it is the parameter `dateOf` here.
 */
module Filenames {
  import opened Records
  import Sorting

  /** A photo whose name got its date appended. */
  function Suffix(p: Photo, dateOf: int -> string): (r: Photo)
    ensures r.url == p.url && r.tag == p.tag && r.date == p.date
    ensures Likes(r.fileName) == Likes(p.fileName)
    ensures Render(r.fileName) == Render(p.fileName) + "(" + dateOf(p.date) + ")"
  {
    p.(fileName := Suffixed(p.fileName, dateOf(p.date)))
  }

  /** `q` differs from `p` at most in its `file_name`, which is built from the same like-count. */
  predicate SameButName(q: Photo, p: Photo)
  {
    q.url == p.url && q.tag == p.tag && q.date == p.date && Likes(q.fileName) == Likes(p.fileName)
  }

  /** Iteration `i` of the loop: compare entries `i` and `i + 1` as they are now. */
  function Step(s: seq<Photo>, i: nat, dateOf: int -> string): (r: seq<Photo>)
    requires i + 1 < |s|
    ensures |r| == |s| && r[..i] == s[..i] && r[i + 2..] == s[i + 2..]
    ensures forall j :: 0 <= j < |s| ==> SameButName(r[j], s[j])
  {
    if SameName(s[i].fileName, s[i + 1].fileName)
    then s[i := Suffix(s[i], dateOf)][i + 1 := Suffix(s[i + 1], dateOf)]
    else s
  }

  /** The loop from iteration `i` on, applied to the state `s`. */
  function Pass(s: seq<Photo>, i: nat, dateOf: int -> string): (r: seq<Photo>)
    requires i <= |s|
    ensures |r| == |s|
    ensures forall j :: 0 <= j < |s| ==> SameButName(r[j], s[j])
    ensures r[..i] == s[..i]
    decreases |s| - i
  {
    if i + 1 >= |s| then s else Pass(Step(s, i, dateOf), i + 1, dateOf)
  }

  /**
   * What `edit_filename` leaves in the list: as many photos, in the same
   * order, each keeping its url, type, date and like-count.
   */
  function Disambiguate(s: seq<Photo>, dateOf: int -> string): (r: seq<Photo>)
    ensures |r| == |s|
    ensures forall j :: 0 <= j < |s| ==> SameButName(r[j], s[j])
  {
    Pass(s, 0, dateOf)
  }

  /** `edit_filename`, updating the photos in place. */
  method EditFilename(photos: array<Photo>, dateOf: int -> string)
    modifies photos
    ensures photos[..] == Disambiguate(old(photos[..]), dateOf)
  {
    var i := 0;
    while i + 1 < photos.Length
      invariant i <= photos.Length
      invariant Pass(photos[..], i, dateOf) == Disambiguate(old(photos[..]), dateOf)
    {
      if SameName(photos[i].fileName, photos[i + 1].fileName) {
        var date1 := dateOf(photos[i].date);
        var date2 := dateOf(photos[i + 1].date);
        photos[i] := photos[i].(fileName := Suffixed(photos[i].fileName, date1));
        photos[i + 1] := photos[i + 1].(fileName := Suffixed(photos[i + 1].fileName, date2));
      }
      i := i + 1;
    }
  }

  /** Every name is still the like-count `get_links` put there. */
  predicate AllCounts(s: seq<Photo>)
  {
    forall j :: 0 <= j < |s| ==> s[j].fileName.Count?
  }

  /**
   * Greedy pairing from the left: two equal neighbours are both renamed and
   * the scan resumes after them. This is the reference `Disambiguate` is
   * proved equal to on lists whose names are all like-counts.
   */
  function PairOff(s: seq<Photo>, dateOf: int -> string): (r: seq<Photo>)
    ensures |r| == |s|
    decreases |s|
  {
    if |s| < 2 then s
    else if s[0].fileName == s[1].fileName
    then [Suffix(s[0], dateOf), Suffix(s[1], dateOf)] + PairOff(s[2..], dateOf)
    else [s[0]] + PairOff(s[1..], dateOf)
  }

  /** Each entry of `PairOff` is the photo unchanged or suffixed once with its own date. */
  lemma {:induction false} PairOffEntries(s: seq<Photo>, dateOf: int -> string)
    ensures forall j :: 0 <= j < |s| ==>
              PairOff(s, dateOf)[j] == s[j] || PairOff(s, dateOf)[j] == Suffix(s[j], dateOf)
    decreases |s|
  {
    if |s| >= 2 {
      var n := if s[0].fileName == s[1].fileName then 2 else 1;
      PairOffEntries(s[n..], dateOf);
      var r, r' := PairOff(s, dateOf), PairOff(s[n..], dateOf);
      forall j | n <= j < |s| ensures r[j] == s[j] || r[j] == Suffix(s[j], dateOf) {
        assert r[j] == r'[j - n] && s[n..][j - n] == s[j];
      }
    }
  }

  /** One iteration past a prefix `t` does not touch it. */
  lemma StepShift(t: seq<Photo>, u: seq<Photo>, j: nat, dateOf: int -> string)
    requires j + 1 < |u|
    ensures Step(t + u, |t| + j, dateOf) == t + Step(u, j, dateOf)
  {
    var k := |t| + j;
    assert (t + u)[k] == u[j] && (t + u)[k + 1] == u[j + 1];
    var l, r := Step(t + u, k, dateOf), t + Step(u, j, dateOf);
    forall i | 0 <= i < |l| ensures l[i] == r[i] {
      if i >= |t| {
        assert r[i] == Step(u, j, dateOf)[i - |t|];
      }
    }
  }

  /** Iterations past a prefix `t` never touch it. */
  lemma {:induction false} PassShift(t: seq<Photo>, u: seq<Photo>, j: nat, dateOf: int -> string)
    requires j <= |u|
    ensures Pass(t + u, |t| + j, dateOf) == t + Pass(u, j, dateOf)
    decreases |u| - j
  {
    if j + 1 < |u| {
      StepShift(t, u, j, dateOf);
      PassShift(t, Step(u, j, dateOf), j + 1, dateOf);
    }
  }

  /** The loop over a list that starts with two equal like-counts. */
  lemma PassPaired(s: seq<Photo>, dateOf: int -> string)
    requires |s| >= 2 && AllCounts(s) && s[0].fileName == s[1].fileName
    ensures Pass(s, 0, dateOf) == [Suffix(s[0], dateOf), Suffix(s[1], dateOf)] + Pass(s[2..], 0, dateOf)
  {
    var t := [Suffix(s[0], dateOf), Suffix(s[1], dateOf)];
    assert Step(s, 0, dateOf) == t + s[2..];
    if |s| > 2 {
      assert (t + s[2..])[2] == s[2];
      assert Step(t + s[2..], 1, dateOf) == t + s[2..];
    }
    PassShift(t, s[2..], 0, dateOf);
  }

  /** The loop over a list that starts with two different like-counts. */
  lemma PassUnpaired(s: seq<Photo>, dateOf: int -> string)
    requires |s| >= 2 && AllCounts(s) && s[0].fileName != s[1].fileName
    ensures Pass(s, 0, dateOf) == [s[0]] + Pass(s[1..], 0, dateOf)
  {
    assert Step(s, 0, dateOf) == s;
    assert s == [s[0]] + s[1..];
    PassShift([s[0]], s[1..], 0, dateOf);
  }

  /**
   * On the list `get_links` builds, where every name is a like-count, the
   * loop pairs equal neighbours off greedily from the left: a name it has
   * just suffixed is a string and can no longer equal the next like-count.
   */
  lemma {:induction false} DisambiguateIsPairOff(s: seq<Photo>, dateOf: int -> string)
    requires AllCounts(s)
    ensures Disambiguate(s, dateOf) == PairOff(s, dateOf)
    decreases |s|
  {
    if |s| >= 2 {
      if s[0].fileName == s[1].fileName {
        PassPaired(s, dateOf);
        DisambiguateIsPairOff(s[2..], dateOf);
      } else {
        PassUnpaired(s, dateOf);
        DisambiguateIsPairOff(s[1..], dateOf);
      }
    }
  }

  /** `PairOff` leaves no two neighbours with the same bare like-count. */
  lemma {:induction false} PairOffNoAdjacentDuplicates(s: seq<Photo>, dateOf: int -> string)
    requires AllCounts(s)
    ensures forall j :: 0 <= j < |s| - 1 && PairOff(s, dateOf)[j].fileName.Count?
                     && PairOff(s, dateOf)[j + 1].fileName.Count?
                     ==> PairOff(s, dateOf)[j].fileName != PairOff(s, dateOf)[j + 1].fileName
    decreases |s|
  {
    var r := PairOff(s, dateOf);
    if |s| >= 2 {
      if s[0].fileName == s[1].fileName {
        var rest := PairOff(s[2..], dateOf);
        PairOffNoAdjacentDuplicates(s[2..], dateOf);
        assert r == [Suffix(s[0], dateOf), Suffix(s[1], dateOf)] + rest;
        forall j | 2 <= j < |r| ensures r[j] == rest[j - 2] { }
      } else {
        var rest := PairOff(s[1..], dateOf);
        PairOffNoAdjacentDuplicates(s[1..], dateOf);
        assert r == [s[0]] + rest;
        forall j | 1 <= j < |r| ensures r[j] == rest[j - 1] { }
        assert r[1] == s[1] || r[1] == Suffix(s[1], dateOf) by {
          assert s[1..][0] == s[1];
        }
        assert r[0] == s[0];
        assert r[1].fileName.Count? ==> r[0].fileName != r[1].fileName;
      }
    }
  }

  /**
   * After renaming, no two neighbours both still carry the same like-count:
   * every pair of equal neighbours the input had has been split.
   */
  lemma NoAdjacentDuplicates(s: seq<Photo>, dateOf: int -> string)
    requires AllCounts(s)
    ensures forall j :: 0 <= j < |s| - 1 && Disambiguate(s, dateOf)[j].fileName.Count?
                     && Disambiguate(s, dateOf)[j + 1].fileName.Count?
                     ==> Disambiguate(s, dateOf)[j].fileName != Disambiguate(s, dateOf)[j + 1].fileName
  {
    DisambiguateIsPairOff(s, dateOf);
    PairOffNoAdjacentDuplicates(s, dateOf);
  }

  /**
   * Every final name is the like-count or the like-count followed by the
   * photo's own date, never suffixed twice.
   */
  lemma RenamedAtMostOnce(s: seq<Photo>, dateOf: int -> string)
    requires AllCounts(s)
    ensures forall j :: 0 <= j < |s| ==>
              Disambiguate(s, dateOf)[j] == s[j]
              || (Disambiguate(s, dateOf)[j] == Suffix(s[j], dateOf)
                  && Render(Disambiguate(s, dateOf)[j].fileName)
                     == NatToString(s[j].fileName.likes) + "(" + dateOf(s[j].date) + ")")
  {
    DisambiguateIsPairOff(s, dateOf);
    PairOffEntries(s, dateOf);
  }

  /** The largest even number not above `m`. */
  function EvenPart(m: nat): (e: nat)
    ensures e <= m && e % 2 == 0 && m - e < 2
  {
    if m < 2 then 0 else EvenPart(m - 2) + 2
  }

  /** `s[a..b]` is a maximal run of photos with equal names: it cannot be extended on either side. */
  predicate MaximalRun(s: seq<Photo>, a: nat, b: nat)
  {
    && a < b <= |s|
    && (forall j :: a <= j < b ==> s[j].fileName == s[a].fileName)
    && (a == 0 || s[a - 1].fileName != s[a].fileName)
    && (b == |s| || s[b].fileName != s[a].fileName)
  }

  /** Dropping photos before a maximal run keeps it maximal, and keeps every name a like-count. */
  lemma MaximalRunDrop(s: seq<Photo>, n: nat, a: nat, b: nat)
    requires AllCounts(s) && MaximalRun(s, a, b) && n <= a
    ensures AllCounts(s[n..]) && MaximalRun(s[n..], a - n, b - n)
  {
    assert forall j :: 0 <= j < |s| - n ==> s[n..][j] == s[j + n];
  }

  /** Dropping the first two photos of a longer maximal run at the front leaves a maximal run at the front. */
  lemma MaximalRunShorten(s: seq<Photo>, b: nat)
    requires AllCounts(s) && MaximalRun(s, 0, b) && 2 < b
    ensures AllCounts(s[2..]) && MaximalRun(s[2..], 0, b - 2)
  {
    assert forall j :: 0 <= j < |s| - 2 ==> s[2..][j] == s[j + 2];
  }

  /** `PairOff` settles the first photo, or the first two when their names are equal, and goes on with the rest. */
  lemma PairOffStep(s: seq<Photo>, dateOf: int -> string) returns (n: nat)
    requires 2 <= |s|
    ensures n == (if s[0].fileName == s[1].fileName then 2 else 1)
    ensures PairOff(s, dateOf)[n..] == PairOff(s[n..], dateOf)
  {
    n := if s[0].fileName == s[1].fileName then 2 else 1;
    var r, r' := PairOff(s, dateOf), PairOff(s[n..], dateOf);
    if n == 2 {
      assert r == [Suffix(s[0], dateOf), Suffix(s[1], dateOf)] + r';
    } else {
      assert r == [s[0]] + r';
    }
  }

  /**
   * `PairOff` over a maximal run `s[a..a + m]` of equal like-counts suffixes
   * exactly the first `EvenPart(m)` photos of the run.
   */
  lemma {:induction false} PairOffRunAt(s: seq<Photo>, a: nat, m: nat, dateOf: int -> string)
    requires AllCounts(s) && MaximalRun(s, a, a + m)
    ensures forall j :: a <= j < a + m ==>
              (PairOff(s, dateOf)[j].fileName.Suffixed? <==> j - a < EvenPart(m))
    decreases |s|, 1
  {
    if a == 0 && m == 1 {
      assert PairOff(s, dateOf)[0] == s[0];
    } else if a == 0 {
      PairOffRunFront(s, m, dateOf);
    } else {
      PairOffRunLater(s, a, m, dateOf);
    }
  }

  /** `PairOffRunAt` for a run of two or more photos at the front: its first two are renamed. */
  lemma {:induction false} PairOffRunFront(s: seq<Photo>, m: nat, dateOf: int -> string)
    requires AllCounts(s) && MaximalRun(s, 0, m) && 2 <= m
    ensures forall j :: 0 <= j < m ==>
              (PairOff(s, dateOf)[j].fileName.Suffixed? <==> j < EvenPart(m))
    decreases |s|, 0
  {
    var r, r' := PairOff(s, dateOf), PairOff(s[2..], dateOf);
    assert r == [Suffix(s[0], dateOf), Suffix(s[1], dateOf)] + r';
    if m > 2 {
      MaximalRunShorten(s, m);
      PairOffRunAt(s[2..], 0, m - 2, dateOf);
      ShiftedRun(r, r', 2, 2, m - 2, EvenPart(m - 2));
    }
  }

  /** `PairOffRunAt` for a run after the front: the photos before it are settled first. */
  lemma {:induction false} PairOffRunLater(s: seq<Photo>, a: nat, m: nat, dateOf: int -> string)
    requires AllCounts(s) && MaximalRun(s, a, a + m) && 0 < a
    ensures forall j :: a <= j < a + m ==>
              (PairOff(s, dateOf)[j].fileName.Suffixed? <==> j - a < EvenPart(m))
    decreases |s|, 0
  {
    var n := PairOffStep(s, dateOf);
    assert n <= a;
    MaximalRunDrop(s, n, a, a + m);
    PairOffRunAt(s[n..], a - n, m, dateOf);
    ShiftedRun(PairOff(s, dateOf), PairOff(s[n..], dateOf), n, a, m, EvenPart(m));
  }

  /** What holds of a run in `r'` holds of the same run `n` places further on in `r`, when `r[n..] == r'`. */
  lemma ShiftedRun(r: seq<Photo>, r': seq<Photo>, n: nat, a: nat, m: nat, e: int)
    requires n <= a && a + m <= |r| && |r| == n + |r'| && r[n..] == r'
    requires forall k :: a - n <= k < a - n + m ==> (r'[k].fileName.Suffixed? <==> k - (a - n) < e)
    ensures forall j :: a <= j < a + m ==> (r[j].fileName.Suffixed? <==> j - a < e)
  {
    forall j | a <= j < a + m
      ensures r[j].fileName.Suffixed? <==> j - a < e
    {
      assert r[j] == r'[j - n];
    }
  }

  /** No two entries of `r` whose names are still bare like-counts share a name. */
  predicate BareNamesDistinct(r: seq<Photo>)
  {
    forall i, j :: 0 <= i < j < |r| && r[i].fileName.Count? && r[j].fileName.Count?
                   ==> r[i].fileName != r[j].fileName
  }

  /** Putting two renamed entries in front keeps the bare names distinct. */
  lemma PairedFrontDistinct(a: Photo, b: Photo, rest: seq<Photo>)
    requires a.fileName.Suffixed? && b.fileName.Suffixed? && BareNamesDistinct(rest)
    ensures BareNamesDistinct([a, b] + rest)
  {
    var r := [a, b] + rest;
    forall i, j | 2 <= i < j < |r| ensures r[i] == rest[i - 2] && r[j] == rest[j - 2] { }
  }

  /** Putting a bare entry in front keeps the bare names distinct when no bare name of `rest` is its name. */
  lemma BareFrontDistinct(a: Photo, rest: seq<Photo>)
    requires BareNamesDistinct(rest)
    requires forall j :: 0 <= j < |rest| && rest[j].fileName.Count? ==> rest[j].fileName != a.fileName
    ensures BareNamesDistinct([a] + rest)
  {
    var r := [a] + rest;
    forall i, j | 1 <= i < j < |r| ensures r[i] == rest[i - 1] && r[j] == rest[j - 1] { }
  }

  /**
   * Within every maximal run `s[a..a + m]` of equal like-counts of the list,
   * the photos are renamed in consecutive pairs from the left of the run, so
   * a run of odd length keeps its last photo's bare like-count.
   */
  lemma RunPairedFromLeft(s: seq<Photo>, a: nat, m: nat, dateOf: int -> string)
    requires AllCounts(s) && MaximalRun(s, a, a + m)
    ensures forall j :: a <= j < a + m ==>
              (Disambiguate(s, dateOf)[j].fileName.Suffixed? <==> j - a < EvenPart(m))
  {
    DisambiguateIsPairOff(s, dateOf);
    PairOffRunAt(s, a, m, dateOf);
  }

  /** On a list sorted by like-count, `PairOff` leaves each bare like-count at most once. */
  lemma {:induction false} PairOffUnrenamedDistinct(s: seq<Photo>, dateOf: int -> string)
    requires AllCounts(s) && Sorting.SortedBy(s, LikesKey)
    ensures BareNamesDistinct(PairOff(s, dateOf))
    decreases |s|
  {
    if |s| >= 2 {
      if s[0].fileName == s[1].fileName {
        PairOffUnrenamedDistinct(s[2..], dateOf);
        PairedFrontDistinct(Suffix(s[0], dateOf), Suffix(s[1], dateOf), PairOff(s[2..], dateOf));
      } else {
        var rest := PairOff(s[1..], dateOf);
        PairOffUnrenamedDistinct(s[1..], dateOf);
        PairOffEntries(s[1..], dateOf);
        forall j | 0 <= j < |rest| && rest[j].fileName.Count?
          ensures rest[j].fileName != s[0].fileName
        {
          assert rest[j] == s[j + 1];
          assert LikesKey(s[0]) <= LikesKey(s[1]) <= LikesKey(s[j + 1]);
        }
        BareFrontDistinct(s[0], rest);
      }
    }
  }

  /**
   * Once the photos are sorted by like-count, the names left bare after
   * renaming are pairwise different: a like-count shared by several photos
   * keeps at most one bare copy, the last photo of an odd run.
   */
  lemma UnrenamedNamesDistinct(s: seq<Photo>, dateOf: int -> string)
    requires AllCounts(s) && Sorting.SortedBy(s, LikesKey)
    ensures BareNamesDistinct(Disambiguate(s, dateOf))
  {
    DisambiguateIsPairOff(s, dateOf);
    PairOffUnrenamedDistinct(s, dateOf);
  }

  /** Two photos with 7 likes dated 01-01-23 and 02-01-23 become `7(01-01-23)` and `7(02-01-23)`. */
  lemma TwoSevens(p: Photo, q: Photo, dateOf: int -> string)
    requires p.fileName == Count(7) && q.fileName == Count(7)
    requires dateOf(p.date) == "01-01-23" && dateOf(q.date) == "02-01-23"
    ensures |Disambiguate([p, q], dateOf)| == 2
    ensures Render(Disambiguate([p, q], dateOf)[0].fileName) == "7(01-01-23)"
    ensures Render(Disambiguate([p, q], dateOf)[1].fileName) == "7(02-01-23)"
  {
    PassPaired([p, q], dateOf);
    assert NatToString(7) == "7";
  }

  /**
   * Renaming does not make names unique: two photos with the same like-count
   * taken on the same day end up with the same name.
   */
  lemma SameDayNamesCollide(p: Photo, q: Photo, dateOf: int -> string)
    requires p.fileName == q.fileName && p.fileName.Count?
    requires dateOf(p.date) == dateOf(q.date)
    ensures Disambiguate([p, q], dateOf)[0].fileName == Disambiguate([p, q], dateOf)[1].fileName
  {
    PassPaired([p, q], dateOf);
  }
}
