/**
 * The in-memory index an appender keeps: one `appendedData` record per
 * named blob, and the `appendedMetadata` that Close serialises.
 */
module Index {

  /** `METADATA_VERSION`: the version tag every new index carries. */
  const MetadataVersion: string := "0.1"

  /**
   * `appendedData`: where one blob's compressed bytes start in the file and
   * how many of them there are. Go stores both as `int64`; file offsets are
   * never negative, so they are naturals here.
   */
  datatype Entry = Entry(startFilePtr: nat, zippedSize: nat)
  {
    /** The offset one past the blob's last byte. */
    function End(): (r: nat)
      ensures startFilePtr <= r
    {
      startFilePtr + zippedSize
    }
  }

  /** `appendedMetadata`: the version tag and the name-to-range map. */
  datatype Metadata = Metadata(version: string, data: map<string, Entry>)

  /** Two byte ranges share no offset. */
  ghost predicate Disjoint(a: Entry, b: Entry)
  {
    a.End() <= b.startFilePtr || b.End() <= a.startFilePtr
  }

  /**
   * Every recorded range lies in the appended region `[base, len)` of a file
   * of length len, and no two names share a byte.
   */
  ghost predicate WellFormed(data: map<string, Entry>, base: nat, len: nat)
  {
    && (forall n :: n in data ==> base <= data[n].startFilePtr && data[n].End() <= len)
    && (forall n, m {:trigger Disjoint(data[n], data[m])} ::
          n in data && m in data && n != m ==> Disjoint(data[n], data[m]))
  }

  /**
   * Recording the bytes between the old and the new end of file under a name
   * keeps the index well formed, whether or not the name was present before,
   * and every other range ends at or before the new one starts.
   */
  lemma RecordKeepsWellFormed(data: map<string, Entry>, base: nat, len: nat, name: string, len': nat)
    requires WellFormed(data, base, len) && base <= len <= len'
    ensures WellFormed(data[name := Entry(len, len' - len)], base, len')
    ensures forall n :: n in data && n != name ==> data[n].End() <= len
  {
    var data' := data[name := Entry(len, len' - len)];
    forall n, m | n in data' && m in data' && n != m
      ensures Disjoint(data'[n], data'[m])
    {
      if n != name && m != name {
        assert Disjoint(data[n], data[m]);
      }
    }
  }
}
