/**
 * The unit tests of the extractor as methods over the model: each builds
 * the input the same way, runs the same operation and promises the same
 * outcome in its postcondition. The two decoders are parameters, since the
 * tests never exercise them.
 */
module KernelExtractionTests {
  import opened Wrappers
  import opened ByteSearch
  import opened KernelExtraction

  /** A zero-filled buffer, as Go's make([]byte, n) gives. */
  function Zeros(n: nat): (r: seq<byte>)
    ensures |r| == n && forall i :: 0 <= i < n ==> r[i] == 0
  {
    seq(n, _ => 0)
  }

  /** The ASCII bytes "  \n \n " between the two markers of the kernel-detection inputs. */
  const Gap: seq<byte> := [0x20, 0x20, 0x0A, 0x20, 0x0A, 0x20]
  /** The ASCII bytes " \n " that end the kernel-detection inputs. */
  const Tail: seq<byte> := [0x20, 0x0A, 0x20]

  /** "             Linux  \n \n kernel/params.c \n " */
  const KernelLike: seq<byte> := seq(13, _ => 0x20) + LinuxMarker + Gap + ParamsMarker + Tail
  /** "             Lin  \n \n kernel/params.c \n " */
  const Truncated: seq<byte> := seq(13, _ => 0x20) + [0x4C, 0x69, 0x6E] + Gap + ParamsMarker + Tail

  lemma KernelLikeMarkers()
    ensures OccursPastStart(KernelLike, LinuxMarker) && OccursPastStart(KernelLike, ParamsMarker)
  {
    var d := KernelLike;
    assert d[0] == 0x20;
    assert d[0..5][0] == d[0] && d[0..15][0] == d[0];
    assert d[13..18] == LinuxMarker;
    assert d[24..39] == ParamsMarker;
    assert MatchAt(d, LinuxMarker, 13) && MatchAt(d, ParamsMarker, 24);
  }

  /** The second input has no 'x' (0x78), so "Linux" occurs nowhere in it. */
  lemma TruncatedHasNoLinux()
    ensures forall i :: !MatchAt(Truncated, LinuxMarker, i)
  {
    var blanks: seq<byte> := seq(13, _ => 0x20);
    var lin: seq<byte> := [0x4C, 0x69, 0x6E];
    assert Truncated == blanks + lin + Gap + ParamsMarker + Tail;
    assert 0x78 !in blanks && 0x78 !in lin && 0x78 !in Gap && 0x78 !in Tail;
    assert 0x78 !in ParamsMarker;
    AbsentByteNoMatch(Truncated, LinuxMarker, 4);
  }

  method TestReturnBytes(gzip: Decoder, lzma: Decoder) returns (subBytes: seq<byte>)
    ensures subBytes == [0x1F, 0x8B, 0x08, 0x00, 0x00, 0x00, 0x1F, 0x8B, 0x08]
  {
    var data := Zeros(12);
    data := data[3 := 0x1F][4 := 0x8B][5 := 0x08];
    data := data[9 := 0x1F][10 := 0x8B][11 := 0x08];
    var ke := NewKernelExtractor(data, true, gzip, lzma);
    subBytes := ke.ReturnBytes(3);
  }

  method TestNoPattern(gzip: Decoder, lzma: Decoder) returns (found: bool, idx: seq<nat>)
    ensures !found && idx == []
  {
    var data := Zeros(50);
    AbsentByteNoMatch(data, GzipMagic, 0);
    OccurrencesSpec(data, GzipMagic);
    var ke := NewKernelExtractor(data, true, gzip, lzma);
    found, idx := ke.SearchByName("GZIP");
  }

  method TestListHeaders(gzip: Decoder, lzma: Decoder) returns (err: Option<string>)
    ensures err == None
  {
    var data := Zeros(12);
    data := data[3 := 0x1F][4 := 0x8B][5 := 0x08];
    data := data[9 := 0x1F][10 := 0x8B][11 := 0x08];
    var ke := NewKernelExtractor(data, true, gzip, lzma);
    var log;
    err, log := ke.ListAllHeadersFound();
  }

  method TestKernelDetect(gzip: Decoder, lzma: Decoder) returns (isKernel1: bool, isKernel2: bool, isKernel3: bool, isKernel4: bool)
    ensures isKernel1 && !isKernel2 && !isKernel3 && isKernel4
  {
    var data := KernelLike;
    var ke := NewKernelExtractor(data, false, gzip, lzma);
    KernelLikeMarkers();
    isKernel1 := ke.IsKernelImage(data);

    var data2 := Truncated;
    TruncatedHasNoLinux();
    isKernel2 := ke.IsKernelImage(data2);

    data := [];
    isKernel3 := ke.IsKernelImage(data);

    ke := NewKernelExtractor(data, true, gzip, lzma);
    isKernel4 := ke.IsKernelImage([]);
  }

  method TestGZIPIndex(gzip: Decoder, lzma: Decoder) returns (found: bool, idx: seq<nat>)
    ensures found && idx == [10, 30]
  {
    var data := Zeros(50);
    data := data[10 := 0x1F][11 := 0x8B][12 := 0x08];
    data := data[30 := 0x1F][31 := 0x8B][32 := 0x08];
    assert data[10..13] == GzipMagic && data[30..33] == GzipMagic;
    OccurrencesByFirstByte(data, GzipMagic, [10, 30]);
    var ke := NewKernelExtractor(data, true, gzip, lzma);
    found, idx := ke.SearchByName("GZIP");
  }

  method TestXZIndex(gzip: Decoder, lzma: Decoder) returns (found: bool, idx: seq<nat>)
    ensures found && idx == [10]
  {
    var data := Zeros(50);
    data := data[10 := 0xFD][11 := 0x37][12 := 0x7A][13 := 0x58][14 := 0x5A][15 := 0x00];
    assert data[10..16] == XzMagic;
    OccurrencesByFirstByte(data, XzMagic, [10]);
    var ke := NewKernelExtractor(data, true, gzip, lzma);
    found, idx := ke.SearchByName("XZ");
  }

  method TestBZIPIndex(gzip: Decoder, lzma: Decoder) returns (found: bool, idx: seq<nat>)
    ensures found && idx == [10]
  {
    var data := Zeros(50);
    data := data[10 := 0x42][11 := 0x5A][12 := 0x68];
    assert data[10..13] == BzipMagic;
    OccurrencesByFirstByte(data, BzipMagic, [10]);
    var ke := NewKernelExtractor(data, true, gzip, lzma);
    found, idx := ke.SearchByName("BZIP");
  }

  method TestLZMAIndex(gzip: Decoder, lzma: Decoder) returns (found: bool, idx: seq<nat>)
    ensures found && idx == [10]
  {
    var data := Zeros(50);
    data := data[10 := 0x5D][11 := 0x00][12 := 0x00][13 := 0x00];
    assert data[10..13] == LzmaMagic;
    OccurrencesByFirstByte(data, LzmaMagic, [10]);
    var ke := NewKernelExtractor(data, true, gzip, lzma);
    found, idx := ke.SearchByName("LZMA");
  }

  method TestLZOPIndex(gzip: Decoder, lzma: Decoder) returns (found: bool, idx: seq<nat>)
    ensures found && idx == [10]
  {
    var data := Zeros(50);
    data := data[10 := 0x89][11 := 0x4C][12 := 0x5A];
    assert data[10..13] == LzopMagic;
    OccurrencesByFirstByte(data, LzopMagic, [10]);
    var ke := NewKernelExtractor(data, true, gzip, lzma);
    found, idx := ke.SearchByName("LZOP");
  }

  method TestLZ4Index(gzip: Decoder, lzma: Decoder) returns (found: bool, idx: seq<nat>)
    ensures found && idx == [10]
  {
    var data := Zeros(50);
    data := data[10 := 0x02][11 := 0x21][12 := 0x4C][13 := 0x18];
    assert data[10..14] == Lz4Magic;
    OccurrencesByFirstByte(data, Lz4Magic, [10]);
    var ke := NewKernelExtractor(data, true, gzip, lzma);
    found, idx := ke.SearchByName("LZ4");
  }

  method TestZSTDIndex(gzip: Decoder, lzma: Decoder) returns (found: bool, idx: seq<nat>)
    ensures found && idx == [10]
  {
    var data := Zeros(50);
    data := data[10 := 0x28][11 := 0xB5][12 := 0x2F][13 := 0xFD];
    assert data[10..14] == ZstdMagic;
    OccurrencesByFirstByte(data, ZstdMagic, [10]);
    var ke := NewKernelExtractor(data, true, gzip, lzma);
    found, idx := ke.SearchByName("ZSTD");
  }
}
