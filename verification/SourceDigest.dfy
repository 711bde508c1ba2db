/** The byte stream that an app source digest hashes (services/candaceos/source_digest.go). */
module SourceDigest {
  import opened Wrappers

  newtype byte = x: int | 0 <= x < 256

  type Bytes = seq<byte>

  const UINT64_SIZE := 0x1_0000_0000_0000_0000

  /** The fixed text that every digest starts from. */
  function Domain(): Bytes {
    [
      99, 97, 110, 100, 97, 99, 101, 111, 115, 46, 97, 112, 112, 45, 115, 111, 117, 114, 99, 101, 46, 100,
      105, 103, 101, 115, 116, 46, 118, 50, 0
    ]
  }

  /** One regular file as the walk records it. */
  datatype SourceFile = SourceFile(path: Bytes, executable: bool, content: Bytes)

  /** A length in Go is an int, so it fits the unsigned 64-bit field. */
  predicate Sized(file: SourceFile) {
    |file.path| < UINT64_SIZE && |file.content| < UINT64_SIZE
  }

  /** The n low bytes of a number, most significant first. */
  function BigEndian(value: nat, n: nat): (bytes: Bytes)
    ensures |bytes| == n
  {
    if n == 0 then [] else BigEndian(value / 256, n - 1) + [(value % 256) as byte]
  }

  function FromBigEndian(bytes: Bytes): nat {
    if bytes == [] then 0 else 256 * FromBigEndian(bytes[..|bytes| - 1]) + bytes[|bytes| - 1] as nat
  }

  function Power256(n: nat): (p: nat)
    ensures p > 0
  {
    if n == 0 then 1 else 256 * Power256(n - 1)
  }

  lemma {:induction false} BigEndianRoundTrip(value: nat, n: nat)
    requires value < Power256(n)
    ensures FromBigEndian(BigEndian(value, n)) == value
  {
    if n > 0 {
      BigEndianRoundTrip(value / 256, n - 1);
      var bytes := BigEndian(value, n);
      assert bytes[..n - 1] == BigEndian(value / 256, n - 1);
    }
  }

  lemma {:induction false} FromBigEndianRoundTrip(bytes: Bytes)
    ensures FromBigEndian(bytes) < Power256(|bytes|)
    ensures BigEndian(FromBigEndian(bytes), |bytes|) == bytes
  {
    if bytes != [] {
      FromBigEndianRoundTrip(bytes[..|bytes| - 1]);
      assert bytes == bytes[..|bytes| - 1] + [bytes[|bytes| - 1]];
    }
  }

  lemma Power256Of8()
    ensures Power256(8) == UINT64_SIZE
  {
    assert Power256(2) == 0x1_0000;
    assert Power256(4) == 256 * (256 * Power256(2));
    assert Power256(6) == 256 * (256 * Power256(4));
  }

  function Uint64(value: nat): (bytes: Bytes)
    ensures |bytes| == 8
  {
    BigEndian(value, 8)
  }

  /** writeAppSourceDigestRecord: tag, path length, path, executable bit, size, content. */
  function EncodeRecord(file: SourceFile): Bytes {
    [1] + Uint64(|file.path|) + file.path + [if file.executable then 1 else 0] + Uint64(|file.content|) + file.content
  }

  function Encode(files: seq<SourceFile>): Bytes {
    if files == [] then [] else EncodeRecord(files[0]) + Encode(files[1..])
  }

  /** Reads one record from the front of a stream. */
  function DecodeRecord(stream: Bytes): Option<(SourceFile, Bytes)> {
    if |stream| < 9 || stream[0] != 1 then None
    else
      var pathLength := FromBigEndian(stream[1..9]);
      var afterPath := 9 + pathLength;
      if |stream| < afterPath + 9 || stream[afterPath] > 1 then None
      else
        var size := FromBigEndian(stream[afterPath + 1..afterPath + 9]);
        var end := afterPath + 9 + size;
        if |stream| < end then None
        else Some((SourceFile(stream[9..afterPath], stream[afterPath] == 1, stream[afterPath + 9..end]), stream[end..]))
  }

  function Decode(stream: Bytes): Option<seq<SourceFile>>
    decreases |stream|
  {
    if stream == [] then Some([])
    else
      var first := DecodeRecord(stream);
      if first.None? then None
      else
        var rest := Decode(first.value.1);
        if rest.None? then None else Some([first.value.0] + rest.value)
  }

  /** A record is recognised whatever follows it. */
  lemma DecodeRecordRoundTrip(file: SourceFile, rest: Bytes)
    requires Sized(file)
    ensures DecodeRecord(EncodeRecord(file) + rest) == Some((file, rest))
  {
    var stream := EncodeRecord(file) + rest;
    var p := 9 + |file.path|;
    Power256Of8();
    BigEndianRoundTrip(|file.path|, 8);
    BigEndianRoundTrip(|file.content|, 8);
    hide BigEndian, FromBigEndian, Power256;
    assert stream[1..9] == Uint64(|file.path|);
    assert stream[9..p] == file.path;
    assert stream[p] == if file.executable then 1 else 0;
    assert stream[p + 1..p + 9] == Uint64(|file.content|);
    assert stream[p + 9..p + 9 + |file.content|] == file.content;
    assert stream[p + 9 + |file.content|..] == rest;
  }

  // Where a record holds what: the tag, the path with its length, the executable bit, and the content with its length.
  lemma RecordLayout(file: SourceFile)
    requires Sized(file)
    ensures var record, p := EncodeRecord(file), 9 + |file.path|;
            && |record| == p + 9 + |file.content|
            && record[0] == 1 && FromBigEndian(record[1..9]) == |file.path| && record[9..p] == file.path
            && record[p] == (if file.executable then 1 else 0)
            && FromBigEndian(record[p + 1..p + 9]) == |file.content| && record[p + 9..] == file.content
  {
    var record := EncodeRecord(file);
    var p := 9 + |file.path|;
    Power256Of8();
    BigEndianRoundTrip(|file.path|, 8);
    BigEndianRoundTrip(|file.content|, 8);
    hide BigEndian, FromBigEndian, Power256;
    assert record[1..9] == Uint64(|file.path|);
    assert record[9..p] == file.path;
    assert record[p + 1..p + 9] == Uint64(|file.content|);
    assert record[p + 9..] == file.content;
  }

  lemma DomainText()
    ensures |Domain()| == 31 && Domain()[30] == 0
    ensures forall i | 0 <= i < 30 :: Domain()[i] as int == "candaceos.app-source.digest.v2"[i] as int
  {
  }

  /** A stream is what six consecutive slices of it concatenate to. */
  lemma SlicesConcatenate(stream: Bytes, a: nat, b: nat, c: nat, d: nat, e: nat)
    requires 1 <= a <= b < c <= d <= e <= |stream| && c == b + 1
    ensures [stream[0]] + stream[1..a] + stream[a..b] + [stream[b]] + stream[c..d] + stream[d..e] + stream[e..] == stream
  {
    assert [stream[0]] + stream[1..a] == stream[..a];
    assert stream[..a] + stream[a..b] == stream[..b];
    assert stream[..b] + [stream[b]] == stream[..c];
    assert stream[..c] + stream[c..d] == stream[..d];
    assert stream[..d] + stream[d..e] == stream[..e];
  }

  lemma DecodedRecordEncodes(stream: Bytes)
    requires DecodeRecord(stream).Some?
    ensures Sized(DecodeRecord(stream).value.0)
    ensures EncodeRecord(DecodeRecord(stream).value.0) + DecodeRecord(stream).value.1 == stream
  {
    var file := DecodeRecord(stream).value.0;
    var p := 9 + |file.path|;
    Power256Of8();
    FromBigEndianRoundTrip(stream[1..9]);
    FromBigEndianRoundTrip(stream[p + 1..p + 9]);
    hide BigEndian, FromBigEndian, Power256;
    SlicesConcatenate(stream, 9, p, p + 1, p + 9, p + 9 + |file.content|);
  }

  lemma {:induction false} DecodeEncode(files: seq<SourceFile>)
    requires forall file | file in files :: Sized(file)
    ensures Decode(Encode(files)) == Some(files)
  {
    if files != [] {
      DecodeRecordRoundTrip(files[0], Encode(files[1..]));
      DecodeEncode(files[1..]);
      hide EncodeRecord, DecodeRecord;
      RecordNotEmpty(files[0]);
      assert Encode(files) == EncodeRecord(files[0]) + Encode(files[1..]) != [];
      assert [files[0]] + files[1..] == files;
    }
  }

  lemma RecordNotEmpty(file: SourceFile)
    ensures EncodeRecord(file) != []
  {
  }

  // The stream determines the ordered file list, and every stream that decodes is the encoding of what it decodes to.
  lemma {:induction false} DecodesExactlyEncodings(stream: Bytes, files: seq<SourceFile>)
    ensures Decode(stream) == Some(files) <==> Encode(files) == stream && forall file | file in files :: Sized(file)
    decreases |stream|
  {
    if Encode(files) == stream && forall file | file in files :: Sized(file) {
      DecodeEncode(files);
    }
    if Decode(stream) == Some(files) && stream != [] {
      DecodedRecordEncodes(stream);
      hide EncodeRecord, DecodeRecord;
      DecodesExactlyEncodings(DecodeRecord(stream).value.1, files[1..]);
    }
  }

  // Two different ordered file lists never feed the hash the same bytes.
  lemma HashedBytesDetermineFiles(a: seq<SourceFile>, b: seq<SourceFile>)
    requires (forall file | file in a :: Sized(file)) && (forall file | file in b :: Sized(file))
    requires Domain() + Encode(a) == Domain() + Encode(b)
    ensures a == b
  {
    hide Domain;
    assert Encode(a) == (Domain() + Encode(a))[|Domain()|..] && Encode(b) == (Domain() + Encode(b))[|Domain()|..];
    DecodeEncode(a);
    DecodeEncode(b);
  }

  lemma {:induction false} EncodeAppends(files: seq<SourceFile>, last: SourceFile)
    ensures Encode(files + [last]) == Encode(files) + EncodeRecord(last)
  {
    hide EncodeRecord;
    if files == [] {
      assert Encode([last]) == EncodeRecord(last) + Encode([]);
    } else {
      EncodeAppends(files[1..], last);
      assert (files + [last])[1..] == files[1..] + [last];
      assert (EncodeRecord(files[0]) + Encode(files[1..])) + EncodeRecord(last)
          == EncodeRecord(files[0]) + (Encode(files[1..]) + EncodeRecord(last));
    }
  }

  // ---- The hash as a destination of writes ----

  /** What a file's Stat reports, as far as the digest looks at it. */
  datatype FileInfo = FileInfo(regular: bool, size: nat, executable: bool)

  predicate SameAppSourceFile(actual: FileInfo, expected: FileInfo) {
    actual.regular && actual.size == expected.size && actual.executable == expected.executable
  }

  class DigestHash {
    var written: Bytes

    constructor ()
      ensures written == []
    {
      written := [];
    }

    method Write(bytes: Bytes)
      modifies this
      ensures written == old(written) + bytes
    {
      written := written + bytes;
    }

    /** binary.BigEndian.PutUint64 into an eight-byte buffer, from its last byte to its first. */
    method WriteUint64(value: nat)
      requires value < UINT64_SIZE
      modifies this
      ensures written == old(written) + Uint64(value)
    {
      var encoded := new byte[8](_ => 0);
      var rest := value;
      var i := 8;
      while i > 0
        invariant 0 <= i <= 8
        invariant written == old(written)
        invariant BigEndian(rest, i) + encoded[i..] == BigEndian(value, 8)
      {
        assert BigEndian(rest, i) == BigEndian(rest / 256, i - 1) + [(rest % 256) as byte];
        ghost var tail := encoded[i..];
        i := i - 1;
        encoded[i] := (rest % 256) as byte;
        assert encoded[i..] == [(rest % 256) as byte] + tail;
        rest := rest / 256;
      }
      assert encoded[0..] == encoded[..];
      Write(encoded[..]);
    }

    // The open file is what the walk listed, before and after it is read, and holds exactly its size: then, and only
    // then, the record is accepted, and what reached the hash is the record's encoding.
    method WriteRecord(relative: Bytes, expected: FileInfo, atOpen: FileInfo, available: Bytes, after: FileInfo)
      returns (ok: bool)
      requires |relative| < UINT64_SIZE && atOpen.size < UINT64_SIZE
      modifies this
      ensures ok <==> && atOpen.regular && atOpen.size == expected.size && atOpen.executable == expected.executable
                      && after.regular && after.size == atOpen.size && after.executable == atOpen.executable
                      && |available| == atOpen.size
      ensures ok ==> written == old(written) + EncodeRecord(SourceFile(relative, atOpen.executable, available))
    {
      if !SameAppSourceFile(atOpen, expected) {
        return false;
      }
      Write([1]);
      WriteUint64(|relative|);
      Write(relative);
      Write([if atOpen.executable then 1 else 0]);
      WriteUint64(atOpen.size);
      if |available| < atOpen.size {
        Write(available);
        return false;
      }
      Write(available[..atOpen.size]);
      if |available| > atOpen.size || !SameAppSourceFile(after, atOpen) {
        return false;
      }
      assert available[..atOpen.size] == available;
      WrittenRecord(old(written), SourceFile(relative, atOpen.executable, available));
      return true;
    }
  }

  /** Six writes one after the other append the whole record. */
  lemma WrittenRecord(before: Bytes, file: SourceFile)
    ensures before + [1] + Uint64(|file.path|) + file.path + [if file.executable then 1 else 0] + Uint64(|file.content|)
            + file.content == before + EncodeRecord(file)
  {
    hide BigEndian;
  }
}
