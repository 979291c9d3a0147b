# extract-vmlinux-v2: scan, speculative decode and validate, in Dafny

This project models the core of extract-vmlinux-v2, a tool that finds the Linux kernel
inside a bootloader or firmware blob. The tool works in four steps:

- It looks for the magic bytes of seven compression formats at every offset of the input.
- At each offset it finds, it tries the format's decoder on the input from that offset to the end.
- It checks whether the decoded bytes look like a kernel image.
- It collects the candidates that survive, keyed by format name and offset.

Everything in the core lives in `kernel_extractor.go`. The Dafny modules are:

- `KernelExtraction` (kernel_extractor.dfy) models that file.
  - `Algo` is a registry entry (`supportedAlgo`). Its decoder is an `Option` of a function value.
  - `KernelExtractor` models the Go struct of the same name. It is a datatype, because the
    Go methods all take the struct by value and none of them changes it.
  - `NewKernelExtractor` builds the registry map entry by entry, as the Go constructor does.
  - `SearchPattern` is a loop scan proved equal to the specification function `Occurrences`.
  - `ExtractAll` and `ListAllHeadersFound` walk the registry in an arbitrary order, chosen with `:|`.
    Their postconditions do not depend on that order.
- `ByteSearch` (byte_search.dfy) holds the byte type, pattern matching, and what the two library
  searches the core calls return: Go's `bytes.Index`, and a suffix-array lookup of every occurrence
  followed by `sort.Ints`.
- `KernelExtractionTests` (kernel_extractor_test.dfy) restates the unit tests of
  `kernel_extractor_test.go` as methods. Each postcondition promises what the test asserts.
- `Wrappers` (wrappers.dfy) holds `Option` and `Result`.

Behaviour of the code that the model keeps as written:

- The validator computes each flag as `bytes.Index(data, marker) > 0`. A marker counts only if its
  first occurrence is at a positive offset. So an image that starts with "Linux" is rejected
  (`LeadingLinuxRejected`).
- In `callExtractor`, the `:=` at line 104 declares new variables that shadow the named results.
  When a decoder exists, a decode error and the "doesn't look like a valid Kernel Image" error are
  both lost, and the call returns `(nil, nil)`. Only a format with no decoder reports an error.
- The LZMA magic is the 3-byte pattern `5D 00 00`.
- Go's nil slice and nil error are modelled as `[]` and `None`. The callers only look at `len()`,
  so nil and empty behave the same.

Consequences of the code that the model makes explicit:
- The validator does not test plain containment: a marker counts only if its first occurrence is
  past offset 0.
- Rejected candidates are not reported: the validation error is lost to the shadowing at line 104.
- Partial decoder output is never kept: `extractGzipData` returns no data when the read fails
  (extractor_helpers.go:25-28), and `callExtractor` drops `extractLZMAData`'s bytes whenever its
  error is non-nil.

## Model

| member | source | states |
|---|---|---|
| `KernelExtraction.NewKernelExtractor` | kernel_extractor.go:29-84 | The result stores the input and the flag. Its registry is the standard one: seven entries, each stored under its own name, with the literal patterns and suffixes. Exactly GZIP and LZMA carry a decoder, and those decoders are the ones given. |
| `KernelExtraction.StandardRegistryShape` | kernel_extractor.go:33-81 | The standard registry has exactly seven entries, and each is keyed by its own Name. |
| `KernelExtraction.KernelExtractor.ReturnBytes` | kernel_extractor.go:145-147 | For `offset <= len(data)`, the result has length `len(data) - offset` and its byte i is input byte `offset + i`. |
| `ByteSearch.Index` | kernel_extractor.go:92-94 | The model of `bytes.Index`: -1 exactly when the pattern occurs nowhere. Otherwise it is an offset where the pattern occurs, and the pattern occurs at no smaller offset. |
| `ByteSearch.OccurrencesSpec` | kernel_extractor.go:150-156 | The lookup result holds exactly the offsets where a non-empty pattern occurs, overlapping matches included, in strictly ascending order. It is empty exactly when the pattern is empty or occurs nowhere. |
| `ByteSearch.AscendingUnique` | kernel_extractor.go:155 | Once sorted, the offset list is fixed by its set of elements: two strictly ascending lists with the same elements are equal. |
| `KernelExtraction.KernelExtractor.SearchPattern` | kernel_extractor.go:149-157 | The loop scan returns the lookup result `Occurrences`. That is every match offset, strictly ascending. `found` is false, with an empty list, exactly when there is no match. |
| `KernelExtraction.KernelExtractor.SearchByName` | kernel_extractor.go:158-178 | The per-format searches scan for the registered pattern of the named format. A name not in the registry finds nothing, because Go's zero-valued entry has a nil pattern. |
| `KernelExtraction.KernelExtractor.IsKernelImage` | kernel_extractor.go:85-100 | It is true for every input when validation is ignored. Otherwise it is true iff both "Linux" and "kernel/params.c" occur and neither occurs at offset 0, which is the same as both first occurrences being at a positive offset. |
| `KernelExtraction.LeadingLinuxRejected` | kernel_extractor.go:92 | With validation on, any input that begins with "Linux" is rejected, whatever follows the marker. |
| `KernelExtraction.KernelExtractor.CallExtractor` | kernel_extractor.go:102-115 | With no decoder, the result is no data plus the "Currently don't support <Name> extraction" error. With a decoder, the error is always nil. The data is the decoded bytes whenever the decoder succeeds and they pass validation. Non-empty data only ever comes from that case. |
| `KernelExtraction.KernelExtractor.ExtractAll` | kernel_extractor.go:118-142 | The result maps (Name, offset) to data exactly when the offset is in the scan result for that format, the decode call returned a nil error, and the data is non-empty. The value is the data of that call. This holds for every iteration order of the registry. |
| `KernelExtraction.KeptIff` | kernel_extractor.go:121-135 | ExtractAll keeps (Name, offset) iff four things hold. The pattern is non-empty and matches at that offset. The format has a decoder. The decoder succeeds on the input from that offset with non-empty bytes. Those bytes pass validation. |
| `KernelExtraction.KeptOnlyDecodable` | kernel_extractor.go:127-134 | With the standard registry, only GZIP and LZMA candidates can ever be kept. |
| `KernelExtraction.ExtractionUnique` | kernel_extractor.go:121-141 | Any two maps that meet ExtractAll's postcondition are equal. So the result does not depend on the map's iteration order, and running ExtractAll twice gives the same map. |
| `KernelExtraction.KernelExtractor.ListAllHeadersFound` | kernel_extractor.go:181-194 | The error is always nil. The report has exactly one line per registry entry. Each line gives that format's occurrence list, or says "not found" when the list is empty. |
| `KernelExtractionTests.TestReturnBytes` | kernel_extractor_test.go:9-23 | On the 12-byte input with GZIP magic at 3 and 9, the suffix from 3 is `1F 8B 08 00 00 00 1F 8B 08`. |
| `KernelExtractionTests.TestNoPattern` | kernel_extractor_test.go:25-32 | Fifty zero bytes contain no GZIP magic: the search reports not found and an empty list. |
| `KernelExtractionTests.TestListHeaders` | kernel_extractor_test.go:34-48 | The scan-only mode returns a nil error. |
| `KernelExtractionTests.TestKernelDetect` | kernel_extractor_test.go:50-69 | The validator accepts the input with both markers. It rejects the input that has "Lin" instead of "Linux", and it rejects the empty input. With validation ignored, it accepts the empty input. |
| `KernelExtractionTests.TestGZIPIndex` | kernel_extractor_test.go:71-86 | GZIP magic injected at 10 and 30 is found at exactly `[10, 30]`. |
| `KernelExtractionTests.TestXZIndex` | kernel_extractor_test.go:88-102 | XZ magic injected at 10 is found at exactly `[10]`. |
| `KernelExtractionTests.TestBZIPIndex` | kernel_extractor_test.go:104-114 | BZIP magic injected at 10 is found at exactly `[10]`. |
| `KernelExtractionTests.TestLZMAIndex` | kernel_extractor_test.go:116-128 | The four bytes `5D 00 00 00` at 10 give exactly one LZMA match, `[10]`. |
| `KernelExtractionTests.TestLZOPIndex` | kernel_extractor_test.go:130-141 | LZOP magic injected at 10 is found at exactly `[10]`. |
| `KernelExtractionTests.TestLZ4Index` | kernel_extractor_test.go:143-155 | LZ4 magic injected at 10 is found at exactly `[10]`. |
| `KernelExtractionTests.TestZSTDIndex` | kernel_extractor_test.go:157-169 | ZSTD magic injected at 10 is found at exactly `[10]`. |

## Left out

- The decoders (`extractGzipData`, `extractLZMAData` and the unregistered bzip2, XZ and LZ4 wrappers
  in extractor_helpers.go) are not modelled. The two registered ones become `Decoder` parameters of
  `NewKernelExtractor`: opaque functions from the input suffix to decoded bytes or an error. The
  bzip2 rule that keeps partial output belongs to a wrapper the registry never uses.
- The internals of `index/suffixarray` and `sort.Ints` are not modelled. Their combined result is
  specified by `Occurrences`. `SearchPattern` computes it with a plain scan, so the model says
  nothing about the speed of the index.
- The console output of `ExtractAll` (found and not-found lines, attempts, errors, byte counts) is
  not modelled. For `ListAllHeadersFound`, the printed lines appear as a sequence of `HeaderReport`
  values, without their text.
- ExtractAll's file name `vmlinux_<Name>_<offset>.bin` is modelled as the key pair (Name, offset).
  Formatting the name would need a proof that decimal printing of integers is injective.
- `KernelExtraction.KernelExtractor.ReturnBytes` requires `offset <= |data|` (and `offset` is a
  `nat`), so the panic that Go's `k.data[offset:]` raises for an offset outside `0..len(data)` is
  not modelled. Every call in the core passes an offset that `searchPattern` found, and such an
  offset is always below `len(data)`.
- `KernelExtraction.KernelExtractor.ExtractAll` requires `Valid()` (every entry is stored under its
  own Name), which `NewKernelExtractor` establishes. Go does not check this. Without it, two entries
  with the same Name would overwrite each other, and the result would depend on the iteration order.
- Command-line parsing, reading the input file and writing the temporary output files
  (extract-vmlinux-v2.go) are I/O and are not part of this model.
- Go's integer width does not matter here: offsets are bounded by the length of an in-memory slice.
  They are modelled as `nat`.
