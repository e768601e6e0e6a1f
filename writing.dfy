/**
 * The Appender: named blobs are gzip-compressed onto the end of an existing
 * file, an in-memory index records where each one landed, and Close seals
 * the file with the serialised index and an 8-byte pointer to it.
 *
 * The open file is its contents, `file`; every write in the source seeks to
 * the end first, so a write is an append to that sequence. Compression and
 * JSON encoding are foreign library calls, given to the appender as the
 * functions `gzip` and `marshal`. What the operating system does during a
 * call (which seek, copy or write fails, how many bytes reach the file
 * first) is a parameter of that call.
 */
module Writing {
  import opened Wrappers
  import opened Binary
  import opened Index
  import opened Layout

  /** The errors the appender reports, with the context `errors.Wrap` adds. */
  datatype Error =
    | OsError
    | EncodingError
    | AlreadyAdded(name: string)
    | Wrapped(context: string, cause: Error)

  /** A Go `error` result: nil, or the error. */
  datatype Status = Ok | Err(error: Error)

  /** What the file system does during one AppendStreamReader call. */
  datatype StreamIo =
    | StreamCompletes
      /** The seek that finds the start offset fails; nothing is written. */
    | StartSeekFails
      /** Copying into the compressor fails after these bytes reached the file. */
    | CopyFails(written: seq<byte>)
      /** The whole compressed stream is written, then the seek that finds the end offset fails. */
    | EndSeekFails

  /** What the file system does during one Close call. */
  datatype CloseIo =
    | CloseCompletes
    | SeekFails
    | MarshalFails
      /** Writing the index fails after its first `count` bytes reached the file. */
    | IndexWriteFails(count: nat)
      /** Writing the trailer fails after its first `count` bytes reached the file. */
    | TrailerWriteFails(count: nat)
      /** Everything is written; closing the handle reports an error. */
    | HandleCloseFails

  /** The bytes one AppendStreamReader call adds to the file, given the compressed source. */
  function StreamWritten(io: StreamIo, compressed: seq<byte>): (r: seq<byte>)
  {
    match io
    case StartSeekFails => []
    case CopyFails(written) => written
    case _ => compressed
  }

  /** The error AppendStreamReader reports when the file system fails it. */
  function StreamError(io: StreamIo): (r: Error)
    requires !io.StreamCompletes?
  {
    match io
    case StartSeekFails => Wrapped("Seeking to end of file (1)", OsError)
    case CopyFails(_) => Wrapped("Writing zipped data to file", OsError)
    case EndSeekFails => Wrapped("Output corrupted. Seeking to end of file error", OsError)
  }

  /** The first `count` bytes of s, or all of s: what a Write that stops after `count` bytes leaves. */
  function Prefix(s: seq<byte>, count: nat): (r: seq<byte>)
    ensures |r| <= |s| && r == s[..|r|]
    ensures count <= |s| ==> |r| == count
  {
    if count < |s| then s[..count] else s
  }

  lemma ConcatAssoc(a: seq<byte>, b: seq<byte>, c: seq<byte>)
    ensures a + b + c == a + (b + c)
  {
  }

  /** The bytes one Close call adds to the file, given the serialised index and the trailer. */
  function CloseWritten(io: CloseIo, index: seq<byte>, trailer: seq<byte>): (r: seq<byte>)
    ensures |r| <= |index| + |trailer| && r == (index + trailer)[..|r|]
  {
    match io
    case SeekFails => []
    case MarshalFails => []
    case IndexWriteFails(count) => Prefix(index, count)
    case TrailerWriteFails(count) => index + Prefix(trailer, count)
    case _ => index + trailer
  }

  /** The error Close reports when the file system fails it. */
  function CloseError(io: CloseIo): (r: Error)
    requires !io.CloseCompletes?
  {
    match io
    case SeekFails => Wrapped("Seeking to end of file", OsError)
    case MarshalFails => Wrapped("Marshaling metadata", EncodingError)
    case IndexWriteFails(_) => Wrapped("Writing metadata", OsError)
    case TrailerWriteFails(_) => Wrapped("Writing metadata location", OsError)
    case HandleCloseFails => OsError
  }

  /**
   * A file holds an index's blobs: every recorded range lies in the appended
   * part `[base, |file|)`, no two overlap, and each holds the gzip stream of
   * the source recorded under its name.
   */
  ghost predicate Stores(file: seq<byte>, data: map<string, Entry>, sources: map<string, seq<byte>>,
                         base: nat, gzip: seq<byte> -> seq<byte>)
  {
    && sources.Keys == data.Keys
    && WellFormed(data, base, |file|)
    && forall n {:trigger EntryBytes(file, data[n])} ::
         n in data ==> EntryBytes(file, data[n]) == gzip(sources[n])
  }

  /** Bytes appended to the file disturb none of the blobs it holds. */
  lemma ExtendKeepsStores(file: seq<byte>, tail: seq<byte>, data: map<string, Entry>,
                          sources: map<string, seq<byte>>, base: nat, gzip: seq<byte> -> seq<byte>)
    requires Stores(file, data, sources, base, gzip)
    ensures Stores(file + tail, data, sources, base, gzip)
  {
    ExtendKeepsEntries(file, tail, data, base);
  }

  /** Recording the compressed source just appended adds a blob the file holds. */
  lemma RecordKeepsStores(file: seq<byte>, source: seq<byte>, name: string, data: map<string, Entry>,
                          sources: map<string, seq<byte>>, base: nat, gzip: seq<byte> -> seq<byte>)
    requires Stores(file, data, sources, base, gzip) && base <= |file|
    ensures Stores(file + gzip(source), data[name := Entry(|file|, |gzip(source)|)],
                   sources[name := source], base, gzip)
    ensures EntryBytes(file + gzip(source), Entry(|file|, |gzip(source)|)) == gzip(source)
  {
    var file' := file + gzip(source);
    ExtendKeepsEntries(file, gzip(source), data, base);
    RecordKeepsWellFormed(data, base, |file|, name, |file'|);
    assert EntryBytes(file', Entry(|file|, |gzip(source)|)) == gzip(source);
  }

  /**
   * What a reader of a sealed file can rely on: the trailer points at the
   * serialised index, the bytes from there to the trailer are that index,
   * and every recorded range ends before the index and still holds the gzip
   * stream of its source.
   */
  lemma SealedArchiveHoldsEntries(file: seq<byte>, index: seq<byte>, data: map<string, Entry>,
                                  sources: map<string, seq<byte>>, base: nat, gzip: seq<byte> -> seq<byte>)
    requires Stores(file, data, sources, base, gzip) && |file| < Int64Limit
    ensures LocateIndex(Seal(file, index)) == Some(|file|)
    ensures IndexBytes(Seal(file, index)) == Some(index)
    ensures forall n :: n in data ==>
              && data[n].End() <= |file|
              && EntryBytes(Seal(file, index), data[n]) == gzip(sources[n])
  {
    SealLocatesIndex(file, index);
    SealKeepsEntries(file, index, data, base);
    forall n | n in data
      ensures EntryBytes(Seal(file, index), data[n]) == gzip(sources[n])
    {
      assert EntryBytes(file, data[n]) == gzip(sources[n]);
    }
  }

  class Appender {
    /** The contents of the open file. */
    var file: seq<byte>
    /** `metadata.Data`: where each named blob lies in `file`. */
    var data: map<string, Entry>
    /** `metadata.Version`. */
    var version: string
    /** Whether Close has closed the file handle. */
    var closed: bool

    /** A gzip writer wrapped around the file, fed a whole source and closed. */
    const gzip: seq<byte> -> seq<byte>
    /** `json.Marshal` of the metadata. */
    const marshal: Metadata -> seq<byte>

    /** The length of the file when the appender was made: nothing before it is ever an entry. */
    ghost var base: nat
    /** The uncompressed source recorded under each name. */
    ghost var sources: map<string, seq<byte>>

    /**
     * The appender's invariant: every recorded range lies in the appended part
     * of the file, no two overlap, and each holds the gzip stream of the
     * source recorded under its name.
     */
    ghost predicate Valid()
      reads this
    {
      && version == MetadataVersion
      && base <= |file|
      && Stores(file, data, sources, base, gzip)
    }

    /** The struct MakeAppender builds around a freshly opened file. */
    constructor (existing: seq<byte>, gzip: seq<byte> -> seq<byte>, marshal: Metadata -> seq<byte>)
      ensures Valid() && !closed
      ensures file == existing && data == map[] && version == MetadataVersion
      ensures this.gzip == gzip && this.marshal == marshal
      ensures base == |existing| && sources == map[]
    {
      file := existing;
      this.gzip := gzip;
      this.marshal := marshal;
      data := map[];
      version := MetadataVersion;
      closed := false;
      base := |existing|;
      sources := map[];
    }

    /**
     * A write through the file handle. The appender seeks to the end before
     * every write, so the bytes extend the file.
     */
    method Write(bytes: seq<byte>)
      modifies this`file
      ensures file == old(file) + bytes
    {
      file := file + bytes;
    }

    /**
     * Compresses `source` onto the end of the file and records the range it
     * occupies under `name`, replacing any earlier entry of that name.
     */
    method AppendStreamReader(name: string, source: seq<byte>, io: StreamIo) returns (status: Status)
      requires Valid() && !closed
      modifies this
      ensures Valid() && !closed && version == old(version) && base == old(base)
      ensures file == old(file) + StreamWritten(io, gzip(source))
      ensures status.Ok? <==> io.StreamCompletes?
      ensures !status.Ok? ==> status == Err(StreamError(io)) && data == old(data) && sources == old(sources)
      ensures status.Ok? ==>
                && data == old(data)[name := Entry(|old(file)|, |file| - |old(file)|)]
                && sources == old(sources)[name := source]
                && EntryBytes(file, data[name]) == gzip(source)
                && forall n :: n in old(data) ==> old(data)[n].End() <= data[name].startFilePtr
    {
      if io.StartSeekFails? {
        return Err(StreamError(io));
      }
      var startPtr := |file|;
      ghost var before := file;
      if io.CopyFails? {
        ExtendKeepsStores(file, io.written, data, sources, base, gzip);
        Write(io.written);
        return Err(StreamError(io));
      }
      Write(gzip(source));
      if io.EndSeekFails? {
        ExtendKeepsStores(before, gzip(source), data, sources, base, gzip);
        return Err(StreamError(io));
      }
      var endPtr := |file|;
      RecordKeepsStores(before, source, name, data, sources, base, gzip);
      data := data[name := Entry(startPtr, endPtr - startPtr)];
      sources := sources[name := source];
      status := Ok;
    }

    /**
     * Appends the file at path `source` under its own path as name, after
     * checking that no entry of that name exists. `contents` is the file's
     * contents, or None when it cannot be opened; `sourceCloseFails` says
     * whether closing it afterwards reports an error.
     */
    method AppendFile(source: string, contents: Option<seq<byte>>, io: StreamIo, sourceCloseFails: bool)
      returns (status: Status)
      requires Valid() && !closed
      modifies this
      ensures Valid() && !closed && version == old(version) && base == old(base)
      ensures contents.None? ==>
                && status == Err(Wrapped("Opening file: " + source, OsError))
                && file == old(file) && data == old(data) && sources == old(sources)
      ensures contents.Some? && source in old(data) ==>
                && status == Err(AlreadyAdded(source))
                && file == old(file) && data == old(data) && sources == old(sources)
      ensures contents.Some? && source !in old(data) ==>
                && file == old(file) + StreamWritten(io, gzip(contents.value))
                && (!io.StreamCompletes? ==>
                      && status == Err(Wrapped("Appending file stream", StreamError(io)))
                      && data == old(data) && sources == old(sources))
                && (io.StreamCompletes? ==>
                      && status == (if sourceCloseFails then Err(OsError) else Ok)
                      && data == old(data)[source := Entry(|old(file)|, |file| - |old(file)|)]
                      && sources == old(sources)[source := contents.value]
                      && EntryBytes(file, data[source]) == gzip(contents.value))
    {
      if contents.None? {
        return Err(Wrapped("Opening file: " + source, OsError));
      }
      if source in data {
        return Err(AlreadyAdded(source));
      }
      var err := AppendStreamReader(source, contents.value, io);
      if err.Err? {
        return Err(Wrapped("Appending file stream", err.error));
      }
      status := if sourceCloseFails then Err(OsError) else Ok;
    }

    /**
     * Seals the archive: writes the serialised metadata at the end of the
     * file, then the offset where it starts as 8 little-endian bytes, then
     * closes the file. Offsets are Go `int64`s, so the file is shorter than 2^63.
     */
    method Close(io: CloseIo) returns (status: Status)
      requires Valid() && !closed
      requires |file| < Int64Limit
      modifies this
      ensures Valid() && version == old(version) && base == old(base)
      ensures data == old(data) && sources == old(sources)
      ensures file == old(file) + CloseWritten(io, marshal(Metadata(version, data)), PutUint64(|old(file)|))
      ensures status.Ok? <==> io.CloseCompletes?
      ensures !status.Ok? ==> status == Err(CloseError(io))
      ensures closed <==> io.CloseCompletes? || io.HandleCloseFails?
      ensures closed ==> file == Seal(old(file), marshal(Metadata(version, data)))
    {
      if io.SeekFails? {
        return Err(CloseError(io));
      }
      var jsonPtr := |file|;
      var jsonPtrBytes := PutUint64(jsonPtr);
      if io.MarshalFails? {
        return Err(CloseError(io));
      }
      var jsonBytes := marshal(Metadata(version, data));
      if io.IndexWriteFails? {
        ExtendKeepsStores(file, Prefix(jsonBytes, io.count), data, sources, base, gzip);
        Write(Prefix(jsonBytes, io.count));
        return Err(CloseError(io));
      }
      ghost var before := file;
      Write(jsonBytes);
      if io.TrailerWriteFails? {
        Write(Prefix(jsonPtrBytes, io.count));
        ConcatAssoc(before, jsonBytes, Prefix(jsonPtrBytes, io.count));
        ExtendKeepsStores(before, jsonBytes + Prefix(jsonPtrBytes, io.count), data, sources, base, gzip);
        return Err(CloseError(io));
      }
      Write(jsonPtrBytes);
      ConcatAssoc(before, jsonBytes, jsonPtrBytes);
      ExtendKeepsStores(before, jsonBytes + jsonPtrBytes, data, sources, base, gzip);
      closed := true;
      status := if io.HandleCloseFails? then Err(CloseError(io)) else Ok;
    }
  }

  /**
   * Opens an existing file for appending. `contents` is the file's contents,
   * or None when it cannot be opened for reading and writing.
   */
  method MakeAppender(contents: Option<seq<byte>>, gzip: seq<byte> -> seq<byte>, marshal: Metadata -> seq<byte>)
    returns (r: Result<Appender, Error>)
    ensures contents.None? ==> r == Failure(Wrapped("Opening file (RW)", OsError))
    ensures contents.Some? ==>
              && r.Success? && fresh(r.value) && r.value.Valid() && !r.value.closed
              && r.value.file == contents.value
              && r.value.data == map[] && r.value.version == MetadataVersion
              && r.value.base == |contents.value| && r.value.sources == map[]
              && r.value.gzip == gzip && r.value.marshal == marshal
  {
    if contents.None? {
      return Failure(Wrapped("Opening file (RW)", OsError));
    }
    var output := new Appender(contents.value, gzip, marshal);
    return Success(output);
  }
}
