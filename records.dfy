/**
 * The values passed between the downloader, the uploaders and the manifest
 * writer of backup.py, and the names derived from them.
 */
module Records {

  /**
   * A photo's `file_name`. It starts as the integer like-count; renaming turns
   * it into the string `"<name>(<date>)"`, kept here as the name it was built
   * from and the date text, so that its origin stays visible.
   */
  datatype FileName = Count(likes: nat) | Suffixed(base: FileName, date: string)

  /** A resolved photo: `{'file_name', 'url', 'type', 'date'}`. */
  datatype Photo = Photo(fileName: FileName, url: string, tag: string, date: int)

  /**
   * An element of the list that `get_links` returns: photos, followed by the
   * owner id and the album id as two plain strings.
   */
  datatype Entry = PhotoEntry(photo: Photo) | IdEntry(id: string)

  /** Severity of a log record. */
  datatype Level = Info | Warning | Error

  /** A log record: its level and the album, folder or file it is about. */
  datatype LogEntry = LogEntry(level: Level, subject: string)

  function DigitChar(d: nat): (c: char)
    requires d < 10
    ensures '0' <= c <= '9' && c as int - '0' as int == d
  {
    ('0' as int + d) as char
  }

  predicate IsDigits(s: string)
  {
    forall i :: 0 <= i < |s| ==> '0' <= s[i] <= '9'
  }

  /** The number a string of decimal digits denotes. */
  function DecimalValue(s: string): nat
    requires IsDigits(s)
    decreases |s|
  {
    if s == [] then 0
    else 10 * DecimalValue(s[..|s| - 1]) + (s[|s| - 1] as int - '0' as int)
  }

  /** Python's `str(n)` for a non-negative integer: its decimal digits, without leading zeros. */
  function NatToString(n: nat): (r: string)
    ensures |r| >= 1 && IsDigits(r) && DecimalValue(r) == n
    ensures r[0] == '0' ==> r == "0"
    decreases n
  {
    if n < 10 then [DigitChar(n)]
    else
      var r := NatToString(n / 10) + [DigitChar(n % 10)];
      assert r[..|r| - 1] == NatToString(n / 10);
      r
  }

  /** The text Python produces for a `file_name` inside an f-string. */
  function Render(f: FileName): string
  {
    match f
    case Count(n) => NatToString(n)
    case Suffixed(b, d) => Render(b) + "(" + d + ")"
  }

  /**
   * A rendered name starts with the decimal like-count; an integer name is
   * those digits alone, and in a renamed one the digits are followed by `(`
   * and the text ends with `)`.
   */
  lemma {:induction false} RenderShape(f: FileName)
    ensures NatToString(Likes(f)) <= Render(f)
    ensures f.Count? ==> IsDigits(Render(f)) && DecimalValue(Render(f)) == f.likes
    ensures f.Suffixed? ==>
              && |Render(f)| > |NatToString(Likes(f))|
              && Render(f)[|NatToString(Likes(f))|] == '('
              && Render(f)[|Render(f)| - 1] == ')'
  {
    match f
    case Count(_) =>
    case Suffixed(b, d) =>
      RenderShape(b);
      assert Render(f) == Render(b) + ("(" + d + ")");
  }

  /** The like-count a name was built from. */
  function Likes(f: FileName): nat
  {
    match f
    case Count(n) => n
    case Suffixed(b, _) => Likes(b)
  }

  /**
   * Python's `==` on two `file_name` values: integers compare as integers,
   * strings as strings, and an integer never equals a string.
   */
  predicate SameName(a: FileName, b: FileName)
  {
    match (a, b)
    case (Count(x), Count(y)) => x == y
    case (Suffixed(_, _), Suffixed(_, _)) => Render(a) == Render(b)
    case _ => false
  }

  /**
   * Two names are equal in Python exactly when their texts are equal (an
   * integer renders as digits only and a renamed name ends with `)`), and
   * equal names were built from the same like-count.
   */
  lemma SameNameIsSameText(a: FileName, b: FileName)
    ensures SameName(a, b) <==> Render(a) == Render(b)
    ensures SameName(a, b) ==> Likes(a) == Likes(b)
  {
    assert SameName(a, b) <==> Render(a) == Render(b);
    if SameName(a, b) && a.Suffixed? {
      RenderShape(a);
      RenderShape(b);
      var da, db := NatToString(Likes(a)), NatToString(Likes(b));
      assert da == Render(a)[..|da|] == db;
    }
  }

  /** The sort key of a photo: the like-count its name was built from. */
  function LikesKey(p: Photo): int
  {
    Likes(p.fileName)
  }

  /** The shape `get_links` gives its result: photos, then exactly two ids. */
  predicate WellFormedBatch(data: seq<Entry>)
  {
    && |data| >= 2
    && data[|data| - 2].IdEntry?
    && data[|data| - 1].IdEntry?
    && forall j :: 0 <= j < |data| - 2 ==> data[j].PhotoEntry?
  }

  /** The destination folder of an album: `id{owner}_{album}`. */
  function FolderName(ownerId: string, albumId: string): (r: string)
    ensures |r| == |ownerId| + |albumId| + 3
    ensures r[..2] == "id" && r[2..2 + |ownerId|] == ownerId
    ensures r[2 + |ownerId|] == '_' && r[3 + |ownerId|..] == albumId
  {
    "id" + ownerId + "_" + albumId
  }

  /** The name a photo is stored under: its `file_name` followed by `.jpg`. */
  function JpgName(f: FileName): string
  {
    Render(f) + ".jpg"
  }

  /**
   * A stored name ends in `.jpg`, and stripping those four characters gives
   * back the rendered name, which starts with the like-count.
   */
  lemma {:induction false} JpgNameParts(f: FileName)
    ensures |JpgName(f)| == |Render(f)| + 4 && JpgName(f)[|JpgName(f)| - 4..] == ".jpg"
    ensures JpgName(f)[..|JpgName(f)| - 4] == Render(f)
    ensures NatToString(Likes(f)) <= JpgName(f)
  {
    RenderShape(f);
  }

  /**
   * VK owner ids are decimal numbers, possibly negative, so they hold no `_`;
   * for such owners the folder name determines the owner and the album.
   */
  lemma FolderNameInjective(owner1: string, album1: string, owner2: string, album2: string)
    requires '_' !in owner1 && '_' !in owner2
    requires FolderName(owner1, album1) == FolderName(owner2, album2)
    ensures owner1 == owner2 && album1 == album2
  {
  }
}
