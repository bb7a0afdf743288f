/** A ZIP archive as the app writes and reads it: a sequence of entries in
    stored order, each a name and its uncompressed data (the local file
    header and data of section 4.3 of the PKWARE .ZIP File Format
    Specification, APPNOTE.TXT). Compression, CRCs and the byte layout are
    not modelled. */
module Zip {

  type byte = b: int | 0 <= b < 256
  type Bytes = seq<byte>

  datatype Entry = Entry(name: string, data: Bytes)

  /** No two entries share a name: `ZipOutputStream.putNextEntry` throws a
      `ZipException` for a name it has already written. */
  predicate DistinctNames(entries: seq<Entry>) {
    forall i, j :: 0 <= i < j < |entries| ==> entries[i].name != entries[j].name
  }

  predicate HasName(entries: seq<Entry>, name: string) {
    exists i :: 0 <= i < |entries| && entries[i].name == name
  }

  /** What `ZipInputStream.getNextEntry` yields from a stream: the entries in
      stored order, then either the end of the archive or, when the data is
      damaged, a `ZipException`. */
  datatype ZipStream = ZipStream(entries: seq<Entry>, damaged: bool)
}
