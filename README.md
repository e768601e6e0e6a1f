# binappend Appender, modelled in Dafny

binappend is an append-only container format. Named blobs are
gzip-compressed onto the end of an existing file. An in-memory index
(`appendedMetadata`) records, for each name, the offset where its compressed
bytes start (`StartFilePtr`) and how many there are (`ZippedSize`).
`Close` seals the file. It writes the index as JSON, then an 8-byte
little-endian copy of the offset where that JSON begins:

```
[existing content][blob 1]...[blob N][JSON index][uint64 LE offset of the JSON index]
```

This project models the writer side, the `Appender` of `writing.go`, as a
Dafny class. It proves the offset bookkeeping:

- each entry starts at the end of file seen before its write;
- its size is how much the file grew;
- bytes already in the file are never changed;
- entry ranges never overlap, and each holds the gzip stream of its source;
- the trailer `Close` writes points exactly at the index, and every entry
  ends before it.

Files:

- `wrappers.dfy`: `Option` and `Result`.
- `binary.dfy`: Go's `binary.LittleEndian.PutUint64` and `Uint64`, with
  round trips in both directions.
- `index.dfy`: `appendedData` (`Entry`), `appendedMetadata` (`Metadata`),
  `METADATA_VERSION`, and the well-formedness of the name-to-range map.
- `layout.dfy`: `Seal`, the bytes `Close` appends. `LocateIndex` and
  `IndexBytes` read a sealed file's trailer back. `EntryBytes` is the byte
  range an entry names.
- `writing.dfy`: the `Appender` class, `MakeAppender`, and the invariant
  `Stores` that ties the file to the index.

How the source is represented:

- The open file handle is the file's contents, `file: seq<byte>`. Every
  write happens after a seek to the end, so every write appends to that
  sequence.
- gzip compression and `json.Marshal` are library calls. The appender
  receives them as the function-valued fields `gzip` and `marshal`, and
  nothing is assumed about them.
- What the operating system does during a call is a parameter of that call:
  `StreamIo` and `CloseIo` say which seek, copy or write fails and how many
  bytes reach the file first. `Option` says whether `os.Open` or
  `os.OpenFile` succeeds and what the file holds. Each method's
  postcondition gives the new state and the error for every outcome.
- Errors are a small datatype. `Wrapped(context, cause)` stands for
  `errors.Wrap`, and the context strings are the source's own.

Behaviour of the code worth noting:

- `AppendStreamReader` does no duplicate check. It overwrites an existing
  entry of the same name (writing.go:132). Only `AppendFile` rejects a name
  already present (writing.go:163-166).
- Every blob is gzip-compressed (writing.go:116). There is no per-entry
  compression flag.
- The doc comment at writing.go:107 writes the stored range as the Go slice
  `[StartFilePtr:ZippedSize]`. The code records a start and a length
  (writing.go:129-130), so the range is `[StartFilePtr, StartFilePtr+ZippedSize)`.
  That is what `EntryBytes` reads.
- `Close` has no guard against a second call. The model adds a `closed`
  field, set once the handle is closed. `AppendStreamReader`, `AppendFile`
  and `Close` require `!closed`, as their documented preconditions say
  (writing.go:97, writing.go:152, writing.go:186).

## Model

| member | source | states |
|---|---|---|
| Binary.Encode | writing.go:201-202 | The n-byte little-endian encoding has n bytes, and decoding it gives the value back. |
| Binary.Decode | writing.go:190-191 | The value read from n little-endian bytes is below 256^n. |
| Binary.EncodeDecode | writing.go:190-191 | Every byte string is the encoding of its own value, so encoding and decoding are inverse bijections. |
| Binary.PutUint64 | writing.go:201-202 | `PutUint64` yields exactly 8 bytes, and reading them as little-endian gives the offset back. |
| Binary.PutUint64Bytes | writing.go:202 | Byte i of `PutUint64(v)` is bits 8i to 8i+7 of v (Go's `byte(v >> (8*i))`). |
| Binary.Uint64 | writing.go:190-191 | The value read from the 8-byte trailer is a `uint64`. |
| Binary.PutUint64Uint64 | writing.go:190-191 | Re-encoding a decoded trailer gives the same 8 bytes, so the trailer encodes one offset unambiguously. |
| Index.RecordKeepsWellFormed | writing.go:123-132 | Recording `[old end, new end)` under a name keeps all ranges inside the appended region and pairwise disjoint, whether or not the name was present. Every other range ends at or before the new one starts. |
| Layout.Seal | writing.go:197-216 | Sealing adds exactly the index length plus 8 trailer bytes. |
| Layout.LocateIndex | writing.go:190-191 | An offset read from a file's last 8 bytes is accepted only if it lies before the trailer. A file shorter than 8 bytes has no index. |
| Layout.IndexBytes | writing.go:188-191 | The serialised index exists exactly when the trailer locates it. The file is then the bytes before it, the index, and the trailer. |
| Layout.EntryBytes | writing.go:107 | The bytes an entry names are the `ZippedSize` bytes starting at `StartFilePtr`. |
| Layout.SealLocatesIndex | writing.go:197-216 | In a sealed file, the trailer decodes to the length of the file before sealing, and the bytes from there to the trailer are exactly the index. |
| Layout.ExtendKeepsEntry | writing.go:104-105 | Appending bytes leaves any range inside the old file unchanged. |
| Layout.ExtendKeepsEntries | writing.go:112-121 | Appending bytes keeps a well-formed index well formed and leaves every recorded blob unchanged. |
| Layout.SealKeepsEntries | writing.go:186-217 | After sealing, every recorded range ends at or before the offset the trailer gives, and its bytes are unchanged. |
| Writing.ExtendKeepsStores | writing.go:116-121 | Bytes appended to the file, including the partial output of a failed copy, keep every recorded blob intact and the invariant true. |
| Writing.RecordKeepsStores | writing.go:123-132 | Appending `gzip(source)` and recording `[old end, old end + its length)` under `name` keeps the invariant. The new range holds exactly `gzip(source)`. |
| Writing.SealedArchiveHoldsEntries | writing.go:186-217 | For a file satisfying the invariant, the sealed file's trailer points at the index, and the index bytes are exactly what was marshalled. Every entry ends before the index and still holds the gzip stream of its source. |
| Writing.MakeAppender | writing.go:70-82 | If the file cannot be opened read/write, the error is "Opening file (RW)". Otherwise a fresh appender holds the file's bytes unchanged, an empty index, version "0.1", and is not closed. Its invariant covers the region after the existing bytes, so no later entry overlaps them. |
| Writing.Appender.constructor | writing.go:72-80 | The new appender's index is empty, its version is `METADATA_VERSION`, its file is the given contents, and the invariant holds. |
| Writing.Appender.Write | writing.go:209-216 | A write through the handle extends the file by exactly the written bytes and changes nothing else. |
| Writing.Appender.AppendStreamReader | writing.go:108-134 | The new file is the old file followed by what the call wrote: nothing if the first seek fails, the partial output if the copy fails, `gzip(source)` otherwise. Only on success is `name` (re)bound to `Entry(old length, growth)`, and that range holds `gzip(source)`. Every earlier entry ends at or before its start, and all other names are unchanged. On each failure, the index is unchanged and the error is the source's. The invariant is kept. |
| Writing.Appender.AppendFile | writing.go:156-174 | If the source file cannot be opened, the result is the "Opening file" error. If the name is already present, the result is `AlreadyAdded` and the file and index are unchanged. Otherwise it behaves as `AppendStreamReader` with its error wrapped in "Appending file stream". After a successful append, a failing source close is still reported although the entry is recorded. |
| Writing.Appender.Close | writing.go:193-218 | The file grows by what was written before any failure: nothing, a prefix of the JSON, or the JSON plus a prefix of the trailer. Once the handle is closed, the file is `Seal(old file, marshal(metadata))`. The index, version and invariant are unchanged. Each failure reports the source's error. |

## Left out

- Concurrency: the `sync.Mutex` (writing.go:109-110, 162-167, 194-195) is not modelled. Calls are sequential and atomic, so the gap between `AppendFile`'s duplicate check and its append is not modelled either.
- gzip and JSON are not modelled. They are the uninterpreted parameters `gzip` and `marshal`. DEFLATE and the JSON grammar are not verified. Nothing is proved about `json.Unmarshal` or gunzip, which a reader would need.
- Writing.Appender.AppendStreamReader: the error returned by `gzWriter.Close()` is ignored by the source (writing.go:121). The model assumes the full gzip stream reaches the file whenever the copy succeeds.
- Writing.Appender.AppendStreamReader: the bytes a failed copy leaves behind are an arbitrary parameter. How much of the gzip stream was flushed before the failure is not modelled.
- Writing.Appender.AppendFile: the source file handle is not modelled. The source leaks it on the duplicate and append-failure paths (writing.go:163-171).
- Writing.Appender.Close: it requires the file to be shorter than 2^63 bytes. Go file offsets are `int64`, so the `uint64(jsonPtr)` conversion at writing.go:202 never wraps, and the model does not model wrap-around.
- The reader side (`MakeExtractor`, `GetReader`, `AvalibleData`, called from binappend-cli/cmd/read.go) is not modelled; its contract appears only as the inverse properties of `Close` (`SealLocatesIndex`, `SealKeepsEntries`, `SealedArchiveHoldsEntries`).
- The command-line programs (cmd/root.go, binappend-cli/cmd/read.go, binappend-cli/cmd/write.go) are not modelled: they are argument parsing and configuration. binappend-cli/cmd/write.go passes a compression flag to `AppendFile`, but the `AppendFile` in writing.go takes one argument, so that flag is not modelled.
