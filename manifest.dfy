/** The list `make_json` writes to the manifest file (backup.py:214-218). */
module Manifest {
  import opened Records

  /** One manifest record: `{'file_name': '<name>.jpg', 'size': <type>}`. */
  datatype ManifestEntry = ManifestEntry(fileName: string, size: string)

  /**
   * One record per photo of the batch, in batch order; the two trailing ids
   * are not photos and get none. Upload outcomes play no part.
   */
  method MakeJson(data: seq<Entry>) returns (info: seq<ManifestEntry>)
    requires WellFormedBatch(data)
    ensures |info| == |data| - 2
    ensures forall j :: 0 <= j < |info| ==>
              info[j] == ManifestEntry(JpgName(data[j].photo.fileName), data[j].photo.tag)
  {
    info := [];
    for j := 0 to |data| - 2
      invariant |info| == j
      invariant forall h :: 0 <= h < j ==>
                  info[h] == ManifestEntry(JpgName(data[h].photo.fileName), data[h].photo.tag)
    {
      var photo := data[j].photo;
      info := info + [ManifestEntry(JpgName(photo.fileName), photo.tag)];
    }
  }
}
