/**
 * The byte layout of a sealed archive:
 *
 *   [existing content][blob 1]...[blob N][serialised index][8-byte LE offset of the index]
 *
 * Seal is what Close appends; LocateIndex and IndexBytes read a sealed
 * archive's trailer back, the way a reader of the format has to.
 */
module Layout {
  import opened Wrappers
  import opened Binary
  import opened Index

  /** The trailer is one little-endian `uint64`. */
  const TrailerSize: nat := 8

  /** The file after Close: the bytes so far, the serialised index, then the index's offset. */
  function Seal(prefix: seq<byte>, index: seq<byte>): (r: seq<byte>)
    requires |prefix| < Int64Limit
    ensures |r| == |prefix| + |index| + TrailerSize
  {
    prefix + index + PutUint64(|prefix|)
  }

  /**
   * The offset a sealed archive's last eight bytes point at; None when the
   * file is shorter than the trailer or the offset lies past the trailer's start.
   */
  function LocateIndex(archive: seq<byte>): (r: Option<nat>)
    ensures r.Some? ==> r.value + TrailerSize <= |archive|
    ensures |archive| < TrailerSize ==> r.None?
  {
    if |archive| < TrailerSize then None
    else
      var at := Uint64(archive[|archive| - TrailerSize..]);
      if at <= |archive| - TrailerSize then Some(at) else None
  }

  /** The serialised index of a sealed archive: the bytes from the located offset up to the trailer. */
  function IndexBytes(archive: seq<byte>): (r: Option<seq<byte>>)
    ensures r.Some? <==> LocateIndex(archive).Some?
    ensures r.Some? ==> archive == archive[..LocateIndex(archive).value] + r.value
                                  + archive[|archive| - TrailerSize..]
  {
    match LocateIndex(archive)
    case None => None
    case Some(at) => Some(archive[at..|archive| - TrailerSize])
  }

  /** The compressed bytes a recorded range covers. */
  function EntryBytes(archive: seq<byte>, e: Entry): (r: seq<byte>)
    requires e.End() <= |archive|
    ensures |r| == e.zippedSize
  {
    archive[e.startFilePtr..e.End()]
  }

  /**
   * The trailer Close writes points exactly at the index Close wrote before
   * it, and the bytes between the two are that index.
   */
  lemma SealLocatesIndex(prefix: seq<byte>, index: seq<byte>)
    requires |prefix| < Int64Limit
    ensures LocateIndex(Seal(prefix, index)) == Some(|prefix|)
    ensures IndexBytes(Seal(prefix, index)) == Some(index)
  {
    var s := Seal(prefix, index);
    assert s[|prefix|..|s| - TrailerSize] == index;
  }

  /** Appending bytes after a range leaves the range's bytes as they were. */
  lemma ExtendKeepsEntry(file: seq<byte>, tail: seq<byte>, e: Entry)
    requires e.End() <= |file|
    ensures EntryBytes(file + tail, e) == EntryBytes(file, e)
  {
  }

  /**
   * Sealing keeps every recorded blob where it was, and every recorded
   * range ends at or before the offset the trailer gives for the index.
   */
  lemma SealKeepsEntries(prefix: seq<byte>, index: seq<byte>, data: map<string, Entry>, base: nat)
    requires |prefix| < Int64Limit && WellFormed(data, base, |prefix|)
    ensures LocateIndex(Seal(prefix, index)).Some?
    ensures forall n :: n in data ==>
              && data[n].End() <= LocateIndex(Seal(prefix, index)).value
              && EntryBytes(Seal(prefix, index), data[n]) == EntryBytes(prefix, data[n])
  {
    SealLocatesIndex(prefix, index);
    forall n | n in data
      ensures EntryBytes(Seal(prefix, index), data[n]) == EntryBytes(prefix, data[n])
    {
      ExtendKeepsEntry(prefix, index + PutUint64(|prefix|), data[n]);
      assert Seal(prefix, index) == prefix + (index + PutUint64(|prefix|));
    }
  }

  /**
   * Appending bytes to a file keeps a well-formed index well formed and every
   * recorded blob's bytes as they were.
   */
  lemma ExtendKeepsEntries(file: seq<byte>, tail: seq<byte>, data: map<string, Entry>, base: nat)
    requires WellFormed(data, base, |file|)
    ensures WellFormed(data, base, |file + tail|)
    ensures forall n :: n in data ==> EntryBytes(file + tail, data[n]) == EntryBytes(file, data[n])
  {
    forall n | n in data
      ensures EntryBytes(file + tail, data[n]) == EntryBytes(file, data[n])
    {
      ExtendKeepsEntry(file, tail, data[n]);
    }
  }
}
