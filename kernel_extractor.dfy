/**
 * The signature-scan, speculative-decode and validate pipeline of the
 * extractor: a registry of seven compression formats, a scan for every
 * offset of a format's magic bytes, an attempt to decode the input from
 * each such offset, and a check that the decoded bytes look like a Linux
 * kernel image.
 */
module KernelExtraction {
  import opened Wrappers
  import opened ByteSearch

  /** A decompression routine supplied from outside the core: the input from an offset to its end, to the decoded bytes or an error. */
  type Decoder = seq<byte> -> Result<seq<byte>, string>

  /** One entry of the registry: a format's name, its decoder if there is one, an output suffix and its magic bytes. */
  datatype Algo = Algo(name: string, extractFunc: Option<Decoder>, suffix: string, pattern: seq<byte>)

  /** What one decode attempt returns; Go's nil slice and nil error are [] and None. */
  datatype Extraction = Extraction(data: seq<byte>, err: Option<string>)

  /** One line of the scan-only report: offsets found for a format, or none. */
  datatype HeaderReport = HeaderFound(desc: string, offsets: seq<nat>) | HeaderNotFound(desc: string)

  const GzipMagic: seq<byte> := [0x1F, 0x8B, 0x08]
  const BzipMagic: seq<byte> := [0x42, 0x5A, 0x68]        // "BZh"
  const LzmaMagic: seq<byte> := [0x5D, 0x00, 0x00]
  const LzopMagic: seq<byte> := [0x89, 0x4C, 0x5A]        // "\x89LZ"
  const Lz4Magic: seq<byte> := [0x02, 0x21, 0x4C, 0x18]
  const XzMagic: seq<byte> := [0xFD, 0x37, 0x7A, 0x58, 0x5A, 0x00]
  const ZstdMagic: seq<byte> := [0x28, 0xB5, 0x2F, 0xFD]

  /** "Linux" */
  const LinuxMarker: seq<byte> := [0x4C, 0x69, 0x6E, 0x75, 0x78]
  /** "kernel/params.c" */
  const ParamsMarker: seq<byte> := [0x6B, 0x65, 0x72, 0x6E, 0x65, 0x6C, 0x2F, 0x70, 0x61, 0x72, 0x61, 0x6D, 0x73, 0x2E, 0x63]

  /** The error returned for a format whose registry entry has no decoder. */
  function UnsupportedMessage(name: string): string
  {
    "Currently don't support " + name + " extraction"
  }

  /** p occurs somewhere in d, but not at offset 0: what `bytes.Index(d, p) > 0` tests. */
  ghost predicate OccursPastStart(d: seq<byte>, p: seq<byte>)
  {
    (exists i :: MatchAt(d, p, i)) && !MatchAt(d, p, 0)
  }

  /** The names of the standard registry. */
  const RegistryNames: set<string> := {"GZIP", "BZIP", "LZMA", "LZOP", "LZ4", "XZ", "ZSTD"}

  /** The registry as NewKernelExtractor builds it, apart from the identity of the two decoders. */
  ghost predicate StandardRegistry(algos: map<string, Algo>)
  {
    && algos.Keys == RegistryNames
    && (forall desc :: desc in algos ==> algos[desc].name == desc)
    && (forall desc :: desc in algos ==> (algos[desc].extractFunc.Some? <==> desc == "GZIP" || desc == "LZMA"))
    && algos["GZIP"].pattern == GzipMagic && algos["GZIP"].suffix == "gz"
    && algos["BZIP"].pattern == BzipMagic && algos["BZIP"].suffix == "bz"
    && algos["LZMA"].pattern == LzmaMagic && algos["LZMA"].suffix == "lzma"
    && algos["LZOP"].pattern == LzopMagic && algos["LZOP"].suffix == "lzop"
    && algos["LZ4"].pattern == Lz4Magic && algos["LZ4"].suffix == "lz4"
    && algos["XZ"].pattern == XzMagic && algos["XZ"].suffix == "xz"
    && algos["ZSTD"].pattern == ZstdMagic && algos["ZSTD"].suffix == "zstd"
  }

  /** The extractor: the input image, the codec registry keyed by name, and the flag that turns validation off. */
  datatype KernelExtractor = KernelExtractor(data: seq<byte>, algos: map<string, Algo>, ignoreValidation: bool)
  {
    /** Every registry entry is stored under its own name. */
    predicate Valid()
    {
      forall desc :: desc in algos ==> algos[desc].name == desc
    }

    /** The input from offset to its end. */
    function ReturnBytes(offset: nat): (r: seq<byte>)
      requires offset <= |data|
      ensures |r| == |data| - offset
      ensures forall i :: 0 <= i < |r| ==> r[i] == data[offset + i]
    {
      data[offset..]
    }

    /**
     * The kernel-image heuristic: always true when validation is off;
     * otherwise both markers must have their first occurrence at a
     * positive offset, so a marker found only at offset 0 does not count.
     */
    function IsKernelImage(d: seq<byte>): (r: bool)
      ensures ignoreValidation ==> r
      ensures !ignoreValidation ==> (r <==> OccursPastStart(d, LinuxMarker) && OccursPastStart(d, ParamsMarker))
    {
      if ignoreValidation then true
      else
        var flagLinux := Index(d, LinuxMarker) > 0;
        var flagParam := Index(d, ParamsMarker) > 0;
        flagLinux && flagParam
    }

    /** The decoder of algo exists, turns the input from offset into d, and d passes validation. */
    ghost predicate Validated(algo: Algo, offset: nat, d: seq<byte>)
      requires offset <= |data|
    {
      algo.extractFunc.Some? && algo.extractFunc.value(ReturnBytes(offset)) == Success(d) && IsKernelImage(d)
    }

    /**
     * One speculative decode. Without a decoder the result is the
     * "unsupported" error. With one, the Go `:=` declares fresh
     * `extractedData, err` that shadow the named results, so the error of
     * a failed decode or of a failed validation is dropped: the result is
     * the decoded bytes when they are validated and ([], None) otherwise.
     */
    function CallExtractor(algo: Algo, offset: nat): (r: Extraction)
      requires offset <= |data|
      ensures algo.extractFunc.None? ==> r == Extraction([], Some(UnsupportedMessage(algo.name)))
      ensures algo.extractFunc.Some? ==> r.err == None
      ensures forall d :: Validated(algo, offset, d) ==> r.data == d
      ensures r.data != [] ==> Validated(algo, offset, r.data)
    {
      if algo.extractFunc.Some? then
        var res := algo.extractFunc.value(ReturnBytes(offset));
        if res.Success? && IsKernelImage(res.value) then Extraction(res.value, None)
        else Extraction([], None)
      else
        Extraction([], Some(UnsupportedMessage(algo.name)))
    }

    /** ExtractAll keeps the candidate (name, offset). */
    ghost predicate Kept(name: string, offset: nat)
    {
      && name in algos
      && offset in Occurrences(data, algos[name].pattern)
      && offset <= |data|
      && var r := CallExtractor(algos[name], offset);
         r.err == None && |r.data| > 0
    }

    /** files is what ExtractAll returns: the kept candidates, each mapped to its decoded bytes. */
    ghost predicate IsExtraction(files: map<(string, nat), seq<byte>>)
    {
      && (forall key :: key in files <==> Kept(key.0, key.1))
      && (forall key :: key in files ==> files[key] == CallExtractor(algos[key.0], key.1).data)
    }

    /** The scan-only report line for the registry entry desc. */
    function HeaderReportFor(desc: string, algo: Algo): HeaderReport
    {
      var offsets := Occurrences(data, algo.pattern);
      if offsets == [] then HeaderNotFound(desc) else HeaderFound(desc, offsets)
    }

    /**
     * Every offset of pattern in the input, ascending; found is false and the
     * list empty when there is none. A loop scan in place of the suffix array.
     */
    method SearchPattern(pattern: seq<byte>) returns (found: bool, offsets: seq<nat>)
      ensures offsets == Occurrences(data, pattern)
      ensures forall x :: x in offsets <==> |pattern| > 0 && MatchAt(data, pattern, x)
      ensures StrictlyAscending(offsets)
      ensures found <==> offsets != []
    {
      if |pattern| == 0 {
        OccurrencesSpec(data, pattern);
        return false, [];
      }
      offsets := [];
      var i := 0;
      while i + |pattern| <= |data|
        invariant offsets + OccurrencesFrom(data, pattern, i) == Occurrences(data, pattern)
        decreases |data| - i
      {
        ghost var rest := OccurrencesFrom(data, pattern, i + 1);
        if data[i..i + |pattern|] == pattern {
          assert OccurrencesFrom(data, pattern, i) == [i] + rest;
          assert (offsets + [i]) + rest == offsets + ([i] + rest);
          offsets := offsets + [i];
        } else {
          assert OccurrencesFrom(data, pattern, i) == rest;
        }
        i := i + 1;
      }
      assert OccurrencesFrom(data, pattern, i) == [];
      OccurrencesSpec(data, pattern);
      found := offsets != [];
    }

    /**
     * The per-format searches (searchGZIPPattern and the others): look the
     * format up by name and scan for its pattern. A name missing from the
     * registry gives Go's zero-valued entry, whose nil pattern matches nothing.
     */
    method SearchByName(desc: string) returns (found: bool, offsets: seq<nat>)
      ensures desc in algos ==> offsets == Occurrences(data, algos[desc].pattern)
      ensures desc !in algos ==> offsets == []
      ensures found <==> offsets != []
    {
      var pattern := if desc in algos then algos[desc].pattern else [];
      found, offsets := SearchPattern(pattern);
    }

    /**
     * Try every format, in whatever order the registry is iterated, and
     * every offset of its pattern; keep the non-empty results that came
     * back without an error, keyed by (name, offset).
     */
    method ExtractAll() returns (files: map<(string, nat), seq<byte>>)
      requires Valid()
      ensures IsExtraction(files)
    {
      files := map[];
      var remaining := algos.Keys;
      while remaining != {}
        invariant remaining <= algos.Keys
        invariant forall key :: key in files <==> key.0 !in remaining && Kept(key.0, key.1)
        invariant forall key :: key in files ==> key.1 <= |data| && files[key] == CallExtractor(algos[key.0], key.1).data
        decreases remaining
      {
        var desc :| desc in remaining;
        var algo := algos[desc];
        var found, offsets := SearchPattern(algo.pattern);
        if found {
          var j := 0;
          while j < |offsets|
            invariant 0 <= j <= |offsets|
            invariant forall key :: key in files <==>
              (key.0 !in remaining && Kept(key.0, key.1)) || (key.0 == desc && key.1 in offsets[..j] && Kept(key.0, key.1))
            invariant forall key :: key in files ==> key.1 <= |data| && files[key] == CallExtractor(algos[key.0], key.1).data
          {
            var offset := offsets[j];
            assert offset in offsets;
            var r := CallExtractor(algo, offset);
            assert Kept(desc, offset) <==> r.err == None && |r.data| > 0;
            assert offsets[..j + 1] == offsets[..j] + [offset];
            ghost var before := files;
            if r.err.Some? {
            } else if |r.data| > 0 {
              files := files[(algo.name, offset) := r.data];
            }
            forall key
              ensures key in files <==>
                (key.0 !in remaining && Kept(key.0, key.1)) || (key.0 == desc && key.1 in offsets[..j + 1] && Kept(key.0, key.1))
            {
              if key != (desc, offset) {
                assert key in files <==> key in before;
              }
            }
            j := j + 1;
          }
        }
        remaining := remaining - {desc};
      }
    }

    /**
     * The scan-only mode: for every format, in registry iteration order,
     * report the offsets of its pattern or that there are none. It always
     * returns a nil error.
     */
    method ListAllHeadersFound() returns (err: Option<string>, log: seq<HeaderReport>)
      ensures err == None
      ensures forall i :: 0 <= i < |log| ==> log[i].desc in algos && log[i] == HeaderReportFor(log[i].desc, algos[log[i].desc])
      ensures forall i, j :: 0 <= i < j < |log| ==> log[i].desc != log[j].desc
      ensures forall desc :: desc in algos ==> exists i :: 0 <= i < |log| && log[i].desc == desc
    {
      log := [];
      var remaining := algos.Keys;
      ghost var done: set<string> := {};
      while remaining != {}
        invariant remaining <= algos.Keys && done == algos.Keys - remaining
        invariant forall i :: 0 <= i < |log| ==> log[i].desc in algos && log[i].desc !in remaining && log[i] == HeaderReportFor(log[i].desc, algos[log[i].desc])
        invariant forall i, j :: 0 <= i < j < |log| ==> log[i].desc != log[j].desc
        invariant forall desc :: desc in done ==> exists i :: 0 <= i < |log| && log[i].desc == desc
        decreases remaining
      {
        var desc :| desc in remaining;
        var found, offsets := SearchPattern(algos[desc].pattern);
        var line := if found then HeaderFound(desc, offsets) else HeaderNotFound(desc);
        ReportCovers(log, line, done);
        log := log + [line];
        remaining := remaining - {desc};
        done := done + {desc};
      }
      assert done == algos.Keys;
      err := None;
    }
  }

  /**
   * Build the extractor over data with the standard registry. gzip and lzma
   * are the two decoders the registry wires in; the other five formats are
   * recognised but have none.
   */
  method NewKernelExtractor(data: seq<byte>, ignoreValidation: bool, gzip: Decoder, lzma: Decoder) returns (k: KernelExtractor)
    ensures k.data == data && k.ignoreValidation == ignoreValidation
    ensures StandardRegistry(k.algos)
    ensures k.algos["GZIP"].extractFunc == Some(gzip) && k.algos["LZMA"].extractFunc == Some(lzma)
    ensures k.Valid()
  {
    var algos: map<string, Algo> := map[];
    algos := algos["GZIP" := Algo("GZIP", Some(gzip), "gz", GzipMagic)];
    algos := algos["BZIP" := Algo("BZIP", None, "bz", BzipMagic)];
    algos := algos["LZMA" := Algo("LZMA", Some(lzma), "lzma", LzmaMagic)];
    algos := algos["LZOP" := Algo("LZOP", None, "lzop", LzopMagic)];
    algos := algos["LZ4" := Algo("LZ4", None, "lz4", Lz4Magic)];
    algos := algos["XZ" := Algo("XZ", None, "xz", XzMagic)];
    algos := algos["ZSTD" := Algo("ZSTD", None, "zstd", ZstdMagic)];
    k := KernelExtractor(data, algos, ignoreValidation);
  }

  /** Appending a line for desc to a report that names every element of covered names every element of covered + {desc}. */
  lemma ReportCovers(log: seq<HeaderReport>, line: HeaderReport, covered: set<string>)
    requires forall desc :: desc in covered ==> exists i :: 0 <= i < |log| && log[i].desc == desc
    ensures forall desc :: desc in covered + {line.desc} ==> exists i :: 0 <= i < |log + [line]| && (log + [line])[i].desc == desc
  {
    var log' := log + [line];
    forall desc | desc in covered + {line.desc}
      ensures exists i :: 0 <= i < |log'| && log'[i].desc == desc
    {
      if desc == line.desc {
        assert log'[|log|].desc == desc;
      } else {
        var i :| 0 <= i < |log| && log[i].desc == desc;
        assert log'[i].desc == desc;
      }
    }
  }

  /** The standard registry has exactly seven entries: no two of its names coincide. */
  lemma StandardRegistryShape(algos: map<string, Algo>)
    requires StandardRegistry(algos)
    ensures |algos| == 7
  {
    RegistryNamesDistinct();
    assert algos.Keys == RegistryNames;
  }

  /** The seven registry names are pairwise different. */
  lemma RegistryNamesDistinct()
    ensures |RegistryNames| == 7
  {
    // The names differ in their length or in their first or third letter.
    assert "GZIP"[0] == 'G' && "BZIP"[0] == 'B' && "LZMA"[0] == 'L' && "LZOP"[0] == 'L';
    assert "LZMA"[2] == 'M' && "LZOP"[2] == 'O' && "LZ4"[2] == '4' && "XZ"[0] == 'X' && "ZSTD"[0] == 'Z';
    assert |"LZ4"| == 3 && |"XZ"| == 2;
  }

  /**
   * ExtractAll keeps (name, offset) exactly when the format's pattern is
   * non-empty and occurs at offset, the format has a decoder, the decoder
   * succeeds on the input from offset with non-empty bytes, and those bytes
   * pass validation.
   */
  lemma KeptIff(k: KernelExtractor, name: string, offset: nat)
    requires name in k.algos
    ensures k.Kept(name, offset) <==>
      var algo := k.algos[name];
      && |algo.pattern| > 0
      && MatchAt(k.data, algo.pattern, offset)
      && algo.extractFunc.Some?
      && var res := algo.extractFunc.value(k.data[offset..]);
         res.Success? && res.value != [] && k.IsKernelImage(res.value)
  {
    var algo := k.algos[name];
    OccurrencesSpec(k.data, algo.pattern);
    if MatchAt(k.data, algo.pattern, offset) && algo.extractFunc.Some? {
      var res := algo.extractFunc.value(k.data[offset..]);
      assert k.ReturnBytes(offset) == k.data[offset..];
      if res.Success? && k.IsKernelImage(res.value) {
        assert k.Validated(algo, offset, res.value);
      }
    }
  }

  /** With the standard registry only GZIP and LZMA candidates can ever be kept. */
  lemma KeptOnlyDecodable(k: KernelExtractor, name: string, offset: nat)
    requires StandardRegistry(k.algos)
    ensures k.Kept(name, offset) ==> name == "GZIP" || name == "LZMA"
  {
    if k.Kept(name, offset) {
      KeptIff(k, name, offset);
    }
  }

  /**
   * The result of ExtractAll is determined by the extractor alone: the
   * order in which the registry is iterated does not matter, and running it
   * twice gives the same map.
   */
  lemma ExtractionUnique(k: KernelExtractor, files1: map<(string, nat), seq<byte>>, files2: map<(string, nat), seq<byte>>)
    requires k.IsExtraction(files1) && k.IsExtraction(files2)
    ensures files1 == files2
  {
    assert files1.Keys == files2.Keys;
  }

  /**
   * Because the heuristic tests for a first occurrence at a positive
   * offset, an image that begins with "Linux" is rejected even though it
   * contains both markers.
   */
  lemma LeadingLinuxRejected(k: KernelExtractor, rest: seq<byte>)
    requires !k.ignoreValidation
    ensures !k.IsKernelImage(LinuxMarker + rest)
  {
  }
}
