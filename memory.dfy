/** The memory layer: regions and their protection, the rule deciding which regions
    are scanned, the per-region scan loops over a target process, the summary
    statistics, the hexdump of a hit and the region filter.

    The target process is a value: the answers its region queries give, in order, and
    a read oracle returning the bytes a read of `(address, size)` actually delivers.
    The memory is taken to stay the same for the duration of one scan. */
module Memory {
  import opened Common
  import opened Patterns
  import Naive
  import Matchers
  import VTables

  // ---------------------------------------------------------------------------
  // Protection, state and type

  datatype MemoryProtection =
    | NoAccess | ReadOnly | ReadWrite | WriteCopy
    | Execute | ExecuteRead | ExecuteReadWrite | ExecuteWriteCopy

  /** The Win32 `PAGE_*` protection constants. */
  const PageNoAccess: nat := 0x01
  const PageReadOnly: nat := 0x02
  const PageReadWrite: nat := 0x04
  const PageWriteCopy: nat := 0x08
  const PageExecute: nat := 0x10
  const PageExecuteRead: nat := 0x20
  const PageExecuteReadWrite: nat := 0x40
  const PageExecuteWriteCopy: nat := 0x80

  /** The constant each protection stands for. */
  function ProtectionCode(p: MemoryProtection): nat
  {
    match p
    case NoAccess => PageNoAccess
    case ReadOnly => PageReadOnly
    case ReadWrite => PageReadWrite
    case WriteCopy => PageWriteCopy
    case Execute => PageExecute
    case ExecuteRead => PageExecuteRead
    case ExecuteReadWrite => PageExecuteReadWrite
    case ExecuteWriteCopy => PageExecuteWriteCopy
  }

  /** `MemoryProtection::from`: the eight exact codes, anything else (including a code
      with a modifier bit such as `PAGE_GUARD` set) as no access. */
  function ProtectionFrom(code: nat): (p: MemoryProtection)
    ensures p != NoAccess ==> ProtectionCode(p) == code
    ensures (forall q :: ProtectionCode(q) != code) ==> p == NoAccess
  {
    if code == PageNoAccess then NoAccess
    else if code == PageReadOnly then ReadOnly
    else if code == PageReadWrite then ReadWrite
    else if code == PageWriteCopy then WriteCopy
    else if code == PageExecute then Execute
    else if code == PageExecuteRead then ExecuteRead
    else if code == PageExecuteReadWrite then ExecuteReadWrite
    else if code == PageExecuteWriteCopy then ExecuteWriteCopy
    else NoAccess
  }

  /** Decoding a protection's own constant gives the protection back. */
  lemma ProtectionRoundTrip(p: MemoryProtection)
    ensures ProtectionFrom(ProtectionCode(p)) == p
  {
  }

  /** `PAGE_READWRITE | PAGE_GUARD` is not one of the eight codes. */
  lemma GuardedPageIsNoAccess()
    ensures ProtectionFrom(PageReadWrite + 0x100) == NoAccess
  {
  }

  /** The `Display` form: read, write (`W`, or `C` for copy-on-write) and execute columns. */
  function ProtectionText(p: MemoryProtection): (s: string)
    ensures |s| == 3
  {
    match p
    case NoAccess => "---"
    case ReadOnly => "R--"
    case ReadWrite => "RW-"
    case WriteCopy => "RC-"
    case Execute => "--X"
    case ExecuteRead => "R-X"
    case ExecuteReadWrite => "RWX"
    case ExecuteWriteCopy => "RCX"
  }

  lemma ProtectionTextInjective(p: MemoryProtection, q: MemoryProtection)
    requires ProtectionText(p) == ProtectionText(q)
    ensures p == q
  {
    assert ProtectionText(p)[0] == ProtectionText(q)[0];
    assert ProtectionText(p)[1] == ProtectionText(q)[1];
    assert ProtectionText(p)[2] == ProtectionText(q)[2];
  }

  datatype MemoryState = Commit | Free | Reserve

  /** The Win32 `MEM_*` state constants. */
  const MemCommit: nat := 0x1000
  const MemReserve: nat := 0x2000
  const MemFree: nat := 0x10000

  function StateCode(s: MemoryState): nat
  {
    match s
    case Commit => MemCommit
    case Free => MemFree
    case Reserve => MemReserve
  }

  /** `MemoryState::from`: the three codes, anything else as free. */
  function StateFrom(code: nat): (s: MemoryState)
    ensures s != Free ==> StateCode(s) == code
    ensures (forall t :: StateCode(t) != code) ==> s == Free
  {
    if code == MemCommit then Commit
    else if code == MemFree then Free
    else if code == MemReserve then Reserve
    else Free
  }

  lemma StateRoundTrip(s: MemoryState)
    ensures StateFrom(StateCode(s)) == s
  {
  }

  datatype MemoryType = Image | Mapped | Private

  // ---------------------------------------------------------------------------
  // Regions

  datatype MemoryRegion = MemoryRegion(baseAddress: nat, size: nat, protection: MemoryProtection,
                                       state: MemoryState, regionType: MemoryType)

  predicate IsReadable(r: MemoryRegion)
  {
    r.protection in {ReadOnly, ReadWrite, ExecuteRead, ExecuteReadWrite, WriteCopy, ExecuteWriteCopy}
  }

  predicate IsExecutable(r: MemoryRegion)
  {
    r.protection in {Execute, ExecuteRead, ExecuteReadWrite, ExecuteWriteCopy}
  }

  predicate IsWritable(r: MemoryRegion)
  {
    r.protection in {ReadWrite, ExecuteReadWrite, WriteCopy, ExecuteWriteCopy}
  }

  function EndAddress(r: MemoryRegion): (e: nat)
    ensures e >= r.baseAddress && e - r.baseAddress == r.size
  {
    r.baseAddress + r.size
  }

  /** The half-open range `[base, end)`. */
  predicate ContainsAddress(r: MemoryRegion, address: nat)
  {
    r.baseAddress <= address < EndAddress(r)
  }

  /** The three letters of the displayed protection say which predicates hold. */
  lemma ProtectionTextColumns(r: MemoryRegion)
    ensures IsReadable(r) <==> ProtectionText(r.protection)[0] == 'R'
    ensures IsWritable(r) <==> ProtectionText(r.protection)[1] in {'W', 'C'}
    ensures IsExecutable(r) <==> ProtectionText(r.protection)[2] == 'X'
  {
  }

  /** Everything writable is readable. */
  lemma WritableIsReadable(r: MemoryRegion)
    requires IsWritable(r)
    ensures IsReadable(r)
  {
  }

  /** The region `0x1000`/`0x1000` read-write. */
  lemma RegionExample()
    ensures var r := MemoryRegion(0x1000, 0x1000, ReadWrite, Commit, Private);
            IsReadable(r) && IsWritable(r) && !IsExecutable(r) &&
            ContainsAddress(r, 0x1500) && !ContainsAddress(r, 0x2000) && EndAddress(r) == 0x2000
  {
  }

  lemma ProtectionExample()
    ensures ProtectionFrom(PageExecuteRead) == ExecuteRead && ProtectionText(ExecuteRead) == "R-X"
  {
  }

  // ---------------------------------------------------------------------------
  // Errors and the target process

  datatype MemoryError =
    | ProcessAccessFailed
    | ReadFailed(address: nat, reason: string)
    | WriteFailed(address: nat, reason: string)
    | QueryFailed(reason: string)
    | InvalidAddress(address: nat)
    | PatternFailed(error: PatternError)

  /** One answer of a region query: base, size and the raw state and protection codes. */
  datatype BasicInfo = BasicInfo(baseAddress: nat, regionSize: nat, state: nat, protect: nat)

  /** A target: its region-query answers in address order, and what a read of
      `(address, size)` delivers (`None` when the read call fails). */
  datatype Process = Process(queries: seq<BasicInfo>, read: (nat, nat) -> Option<seq<byte>>)

  datatype MemoryScanConfig = MemoryScanConfig(scanExecutable: bool, scanReadable: bool, scanWritable: bool,
                                               maxReadSize: nat, minRegionSize: nat, scanAlignment: nat)

  /** The defaults: executable and readable regions of at least 4 KiB. */
  const DefaultScanConfig: MemoryScanConfig := MemoryScanConfig(true, true, false, 1024 * 1024, 4096, 1)

  /** The scanner. Its pattern scanner is always the hybrid one and its table
      scanner always the default one: nothing sets them. */
  datatype MemoryScanner = MemoryScanner(process: Process, config: MemoryScanConfig)

  /** `MemoryScanner::for_process`: the invalid handle (-1) and the null handle are refused. */
  function ForProcess(handle: int, process: Process): (r: Result<MemoryScanner, MemoryError>)
    ensures r.Err? <==> handle == -1 || handle == 0
    ensures r.Err? ==> r.error == ProcessAccessFailed
    ensures r.Ok? ==> r.value.process == process && r.value.config == DefaultScanConfig
  {
    if handle == -1 || handle == 0 then Err(ProcessAccessFailed)
    else Ok(MemoryScanner(process, DefaultScanConfig))
  }

  function WithConfig(s: MemoryScanner, config: MemoryScanConfig): (r: MemoryScanner)
    ensures r.config == config && r.process == s.process
  {
    s.(config := config)
  }

  /** The region a committed query answer describes. */
  function RegionOf(q: BasicInfo): MemoryRegion
  {
    MemoryRegion(q.baseAddress, q.regionSize, ProtectionFrom(q.protect), StateFrom(q.state), Private)
  }

  /** The region of an answer, if it is committed. */
  function CommittedOne(q: BasicInfo): seq<MemoryRegion>
  {
    if q.state == MemCommit then [RegionOf(q)] else []
  }

  /** The regions `enumerate_regions` reports: the committed answers, in order. */
  function Committed(qs: seq<BasicInfo>): seq<MemoryRegion>
  {
    if qs == [] then [] else Committed(qs[..|qs| - 1]) + CommittedOne(qs[|qs| - 1])
  }

  /** A region is reported exactly for each committed answer, as a committed private
      region with the decoded protection. */
  lemma {:induction false} CommittedSpec(qs: seq<BasicInfo>)
    ensures forall r :: r in Committed(qs) <==> exists k :: 0 <= k < |qs| && qs[k].state == MemCommit && r == RegionOf(qs[k])
    ensures forall r :: r in Committed(qs) ==> r.state == Commit && r.regionType == Private
  {
    if qs != [] {
      var init := qs[..|qs| - 1];
      CommittedSpec(init);
      assert forall k :: 0 <= k < |init| ==> init[k] == qs[k];
    }
  }

  /** `enumerate_regions`: keeps the committed answers. Querying never fails here: a
      query that returns nothing ends the list. */
  method EnumerateRegions(s: MemoryScanner) returns (regions: seq<MemoryRegion>)
    ensures regions == Committed(s.process.queries)
  {
    var qs := s.process.queries;
    regions := [];
    for i := 0 to |qs|
      invariant regions == Committed(qs[..i])
    {
      assert qs[..i + 1][..i] == qs[..i];
      if qs[i].state == MemCommit {
        regions := regions + [RegionOf(qs[i])];
      }
    }
    assert qs[..|qs|] == qs;
  }

  /** `read_memory`: the read must deliver exactly `size` bytes. */
  function ReadMemory(process: Process, address: nat, size: nat): (r: Result<seq<byte>, MemoryError>)
    ensures r.Ok? <==> process.read(address, size).Some? && |process.read(address, size).value| == size
    ensures r.Ok? ==> r.value == process.read(address, size).value
    ensures r.Err? ==> r.error == ReadFailed(address, "ReadProcessMemory failed")
  {
    match process.read(address, size)
    case Some(bs) => if |bs| == size then Ok(bs) else Err(ReadFailed(address, "ReadProcessMemory failed"))
    case None => Err(ReadFailed(address, "ReadProcessMemory failed"))
  }

  // ---------------------------------------------------------------------------
  // Which regions are scanned

  /** `should_scan_region`: large enough, committed, and allowed by one of the enabled
      permission checks. */
  predicate ShouldScanRegion(config: MemoryScanConfig, r: MemoryRegion)
  {
    if r.size < config.minRegionSize then false
    else
      var permitted := (config.scanExecutable && IsExecutable(r)) || (config.scanReadable && IsReadable(r))
                       || (config.scanWritable && IsWritable(r));
      permitted && r.state == Commit
  }

  /** With the defaults, a region is scanned exactly when it is committed, at least 4 KiB
      and readable or executable; `PAGE_NOACCESS` regions never are. */
  lemma DefaultScanRule(r: MemoryRegion)
    ensures ShouldScanRegion(DefaultScanConfig, r) <==>
            r.size >= 4096 && r.state == Commit && (IsReadable(r) || IsExecutable(r))
    ensures r.protection == NoAccess ==> !ShouldScanRegion(DefaultScanConfig, r)
  {
  }

  /** Enabling more permission checks, or lowering the size floor, only adds regions. */
  lemma ShouldScanMonotone(c: MemoryScanConfig, d: MemoryScanConfig, r: MemoryRegion)
    requires c.scanExecutable ==> d.scanExecutable
    requires c.scanReadable ==> d.scanReadable
    requires c.scanWritable ==> d.scanWritable
    requires d.minRegionSize <= c.minRegionSize
    requires ShouldScanRegion(c, r)
    ensures ShouldScanRegion(d, r)
  {
  }

  /** The bytes of a region the scans look at: none unless the region is to be scanned
      and reading all of it succeeds. */
  function RegionBytes(s: MemoryScanner, r: MemoryRegion): (d: Option<seq<byte>>)
    ensures d.Some? ==> ShouldScanRegion(s.config, r) && |d.value| == r.size
  {
    if !ShouldScanRegion(s.config, r) then None
    else
      match ReadMemory(s.process, r.baseAddress, r.size)
      case Ok(data) => Some(data)
      case Err(_) => None
  }

  // ---------------------------------------------------------------------------
  // `find_byte_sequences`

  /** `needle` occurs in `data` at `o`. */
  predicate OccursAt(data: seq<byte>, needle: seq<byte>, o: nat)
  {
    o + |needle| <= |data| && data[o..o + |needle|] == needle
  }

  /** The offsets from `i` on where `needle` occurs. */
  function ByteHitsFrom(data: seq<byte>, needle: seq<byte>, i: nat): seq<nat>
    decreases |data| - i
  {
    if i + |needle| > |data| then []
    else (if OccursAt(data, needle, i) then [i] else []) + ByteHitsFrom(data, needle, i + 1)
  }

  /** Nothing for an empty needle or a shorter buffer; else every offset tested. */
  function ByteHits(data: seq<byte>, needle: seq<byte>): seq<nat>
  {
    if needle == [] || |data| < |needle| then [] else ByteHitsFrom(data, needle, 0)
  }

  predicate IncreasingNats(xs: seq<nat>)
  {
    forall a, b :: 0 <= a < b < |xs| ==> xs[a] < xs[b]
  }

  lemma {:induction false} ByteHitsFromSpec(data: seq<byte>, needle: seq<byte>, i: nat)
    ensures forall o: nat :: o in ByteHitsFrom(data, needle, i) <==> i <= o && OccursAt(data, needle, o)
    ensures forall k :: 0 <= k < |ByteHitsFrom(data, needle, i)| ==> ByteHitsFrom(data, needle, i)[k] >= i
    ensures IncreasingNats(ByteHitsFrom(data, needle, i))
    decreases |data| - i
  {
    if i + |needle| <= |data| {
      ByteHitsFromSpec(data, needle, i + 1);
    }
  }

  /** `find_byte_sequences` returns exactly the offsets where the needle occurs, in
      increasing order, and nothing for an empty needle. */
  lemma ByteHitsSpec(data: seq<byte>, needle: seq<byte>)
    ensures forall o: nat :: o in ByteHits(data, needle) <==> needle != [] && OccursAt(data, needle, o)
    ensures IncreasingNats(ByteHits(data, needle))
  {
    ByteHitsFromSpec(data, needle, 0);
  }

  /** The signature that accepts exactly `bs`: every position known. */
  function ExactBytes(bs: seq<byte>): (r: seq<Option<byte>>)
    ensures |r| == |bs| && forall k :: 0 <= k < |bs| ==> r[k] == Some(bs[k])
  {
    if bs == [] then [] else [Some(bs[0])] + ExactBytes(bs[1..])
  }

  /** The exact search agrees with matching a signature without wildcards. */
  lemma OccursAtIsExactMatch(data: seq<byte>, needle: seq<byte>, o: nat)
    ensures OccursAt(data, needle, o) <==> Matches(Pattern(ExactBytes(needle), MaskOf(ExactBytes(needle))), data, o)
  {
    var p := Pattern(ExactBytes(needle), MaskOf(ExactBytes(needle)));
    if o + |needle| <= |data| {
      if Matches(p, data, o) {
        forall k | 0 <= k < |needle|
          ensures data[o..o + |needle|][k] == needle[k]
        {
          assert Accepts(p.bytes[k], data[o + k]);
        }
      }
      if OccursAt(data, needle, o) {
        forall k | 0 <= k < |needle|
          ensures Accepts(p.bytes[k], data[o + k])
        {
          assert data[o..o + |needle|][k] == data[o + k];
        }
      }
    }
  }

  method FindByteSequences(data: seq<byte>, needle: seq<byte>) returns (hits: seq<nat>)
    ensures hits == ByteHits(data, needle)
  {
    hits := [];
    if needle == [] || |data| < |needle| {
      return;
    }
    for i := 0 to |data| - |needle| + 1
      invariant hits + ByteHitsFrom(data, needle, i) == ByteHitsFrom(data, needle, 0)
    {
      if data[i..i + |needle|] == needle {
        assert ByteHitsFrom(data, needle, i) == [i] + ByteHitsFrom(data, needle, i + 1);
        assert (hits + [i]) + ByteHitsFrom(data, needle, i + 1) == hits + ([i] + ByteHitsFrom(data, needle, i + 1));
        hits := hits + [i];
      } else {
        assert ByteHitsFrom(data, needle, i) == ByteHitsFrom(data, needle, i + 1);
      }
    }
    assert hits + [] == hits;
  }

  // ---------------------------------------------------------------------------
  // Scanning region by region

  /** What a scan over `regions` collects: each region's findings `f(r)`, in region order. */
  function Concat<T>(regions: seq<MemoryRegion>, f: MemoryRegion -> seq<T>): seq<T>
  {
    if regions == [] then [] else Concat(regions[..|regions| - 1], f) + f(regions[|regions| - 1])
  }

  /** Scanning one more region appends its findings. */
  lemma ConcatStep<T>(regions: seq<MemoryRegion>, f: MemoryRegion -> seq<T>, i: nat)
    requires i < |regions|
    ensures Concat(regions[..i + 1], f) == Concat(regions[..i], f) + f(regions[i])
  {
    assert regions[..i + 1][..i] == regions[..i];
  }

  /** Everything collected was found in one of the regions. */
  lemma {:induction false} ConcatMember<T>(regions: seq<MemoryRegion>, f: MemoryRegion -> seq<T>, x: T)
    requires x in Concat(regions, f)
    ensures exists k :: 0 <= k < |regions| && x in f(regions[k])
  {
    var n := |regions| - 1;
    if x !in f(regions[n]) {
      ConcatMember(regions[..n], f, x);
      var k :| 0 <= k < n && x in f(regions[..n][k]);
      assert regions[..n][k] == regions[k];
    }
  }

  /** Everything found in one of the regions is collected. */
  lemma {:induction false} ConcatIncludes<T>(regions: seq<MemoryRegion>, f: MemoryRegion -> seq<T>, k: nat, x: T)
    requires k < |regions| && x in f(regions[k])
    ensures x in Concat(regions, f)
  {
    var n := |regions| - 1;
    if k < n {
      assert regions[..n][k] == regions[k];
      ConcatIncludes(regions[..n], f, k, x);
    }
  }

  // ---------------------------------------------------------------------------
  // Scan results

  datatype ScanResultType = PatternResult | BytesResult | VTableResult

  datatype ScanResult = ScanResult(address: nat, size: nat, region: MemoryRegion,
                                   resultType: ScanResultType, data: seq<byte>)

  /** Every reported hit lies within `data`. */
  predicate InBounds(ms: seq<PatternMatch>, data: seq<byte>)
  {
    forall k :: 0 <= k < |ms| ==> ms[k].offset + ms[k].size <= |data|
  }

  /** The hits of the hybrid scanner lie within the buffer and are real matches. */
  lemma HitsSpec(p: Pattern, data: seq<byte>)
    ensures var ms := Matchers.ScanPattern(Matchers.NewScanner(), p, data);
            InBounds(ms, data) && Sound(ms, p, data) && Increasing(ms) &&
            (|p.bytes| > 0 ==> CompleteFrom(ms, p, data, 0))
  {
    Matchers.FindAllAgrees(Matchers.NewScanner().matcher, p, data);
    Naive.AllMatchesSpec(p, data);
  }

  /** The bytes a hit covers (the hits of a scan always lie within the buffer). */
  function MatchedBytes(data: seq<byte>, m: PatternMatch): (bs: seq<byte>)
    ensures m.offset + m.size <= |data| ==> bs == data[m.offset..m.offset + m.size]
  {
    if m.offset + m.size <= |data| then data[m.offset..m.offset + m.size] else []
  }

  /** The pattern results of one region's bytes: address, size and matched bytes per hit. */
  function PatternResultsIn(r: MemoryRegion, data: seq<byte>, ms: seq<PatternMatch>): (rs: seq<ScanResult>)
    ensures |rs| == |ms|
    ensures forall k :: 0 <= k < |ms| ==>
              rs[k] == ScanResult(r.baseAddress + ms[k].offset, ms[k].size, r, PatternResult, MatchedBytes(data, ms[k]))
  {
    if ms == [] then []
    else
      [ScanResult(r.baseAddress + ms[0].offset, ms[0].size, r, PatternResult, MatchedBytes(data, ms[0]))]
      + PatternResultsIn(r, data, ms[1..])
  }

  /** What `scan_pattern` reports for one region. */
  function RegionPatternResults(s: MemoryScanner, p: Pattern, r: MemoryRegion): seq<ScanResult>
  {
    match RegionBytes(s, r)
    case None => []
    case Some(data) => PatternResultsIn(r, data, Matchers.ScanPattern(Matchers.NewScanner(), p, data))
  }

  /** The results of `scan_pattern` over `regions`, once the pattern is parsed. */
  function PatternsOf(s: MemoryScanner, p: Pattern): MemoryRegion -> seq<ScanResult>
  {
    (r: MemoryRegion) => RegionPatternResults(s, p, r)
  }

  function PatternResults(s: MemoryScanner, p: Pattern, regions: seq<MemoryRegion>): seq<ScanResult>
  {
    Concat(regions, PatternsOf(s, p))
  }

  /** `scan_pattern`, as a value. */
  function ScanPatternSpec(s: MemoryScanner, text: string): Result<seq<ScanResult>, MemoryError>
  {
    match Parse(text)
    case Err(e) => Err(PatternFailed(e))
    case Ok(p) => Ok(PatternResults(s, p, Committed(s.process.queries)))
  }

  /** The inner loop of `scan_pattern`, for one region. */
  method PushPatternResults(r: MemoryRegion, data: seq<byte>, ms: seq<PatternMatch>) returns (rs: seq<ScanResult>)
    requires InBounds(ms, data)
    ensures rs == PatternResultsIn(r, data, ms)
  {
    rs := [];
    for k := 0 to |ms|
      invariant |rs| == k
      invariant forall j :: 0 <= j < k ==>
                  rs[j] == ScanResult(r.baseAddress + ms[j].offset, ms[j].size, r, PatternResult, MatchedBytes(data, ms[j]))
    {
      var m := ms[k];
      assert MatchedBytes(data, m) == data[m.offset..m.offset + m.size];
      rs := rs + [ScanResult(r.baseAddress + m.offset, m.size, r, PatternResult, data[m.offset..m.offset + m.size])];
    }
    assert rs == PatternResultsIn(r, data, ms);
  }

  /** `scan_pattern`: enumerate, parse (a parse error ends the scan), then every
      scanned region's hits in region order. */
  method ScanPattern(s: MemoryScanner, text: string) returns (r: Result<seq<ScanResult>, MemoryError>)
    ensures r == ScanPatternSpec(s, text)
  {
    var regions := EnumerateRegions(s);
    var parsed := Patterns.New(text);
    if parsed.Err? {
      return Err(PatternFailed(parsed.error));
    }
    var p := parsed.value;
    var results: seq<ScanResult> := [];
    for i := 0 to |regions|
      invariant results == PatternResults(s, p, regions[..i])
    {
      var here := ScanRegionPattern(s, p, regions[i]);
      assert here == PatternsOf(s, p)(regions[i]);
      ConcatStep(regions, PatternsOf(s, p), i);
      results := results + here;
    }
    assert regions[..|regions|] == regions;
    return Ok(results);
  }

  /** The body of the region loop of `scan_pattern`. */
  method ScanRegionPattern(s: MemoryScanner, p: Pattern, region: MemoryRegion) returns (here: seq<ScanResult>)
    ensures here == RegionPatternResults(s, p, region)
  {
    here := [];
    if ShouldScanRegion(s.config, region) {
      var read := ReadMemory(s.process, region.baseAddress, region.size);
      if read.Ok? {
        var ms := Matchers.ScanPattern(Matchers.NewScanner(), p, read.value);
        HitsSpec(p, read.value);
        here := PushPatternResults(region, read.value, ms);
      }
    }
  }

  /** A hit of `p` in one region's bytes: the result's address is the region's base plus
      an offset where the pattern matches, and it carries exactly the matched bytes. */
  predicate PatternHit(p: Pattern, data: seq<byte>, x: ScanResult, r: MemoryRegion)
  {
    x.region == r && x.resultType == PatternResult && x.size == |p.bytes| && r.baseAddress <= x.address &&
    var o := x.address - r.baseAddress;
    Matches(p, data, o) && x.data == data[o..o + |p.bytes|]
  }

  /** What a pattern result says about its region: it was scanned and read, and the
      result is a hit of the pattern in the bytes read. */
  ghost predicate PatternResultFrom(s: MemoryScanner, p: Pattern, x: ScanResult, r: MemoryRegion)
  {
    RegionBytes(s, r).Some? && PatternHit(p, RegionBytes(s, r).value, x, r)
  }

  lemma PatternResultsInSound(p: Pattern, data: seq<byte>, ms: seq<PatternMatch>, r: MemoryRegion)
    requires Sound(ms, p, data)
    ensures forall x :: x in PatternResultsIn(r, data, ms) ==> PatternHit(p, data, x, r)
  {
    var rs := PatternResultsIn(r, data, ms);
    forall k | 0 <= k < |rs|
      ensures PatternHit(p, data, rs[k], r)
    {
      PatternResultHit(p, data, ms[k], r);
    }
  }

  lemma PatternResultHit(p: Pattern, data: seq<byte>, m: PatternMatch, r: MemoryRegion)
    requires m.size == |p.bytes| && Matches(p, data, m.offset)
    ensures PatternHit(p, data, ScanResult(r.baseAddress + m.offset, m.size, r, PatternResult, MatchedBytes(data, m)), r)
  {
  }

  lemma RegionPatternResultsSound(s: MemoryScanner, p: Pattern, r: MemoryRegion)
    ensures forall x :: x in RegionPatternResults(s, p, r) ==> PatternResultFrom(s, p, x, r)
  {
    if RegionBytes(s, r).Some? {
      var data := RegionBytes(s, r).value;
      HitsSpec(p, data);
      PatternResultsInSound(p, data, Matchers.ScanPattern(Matchers.NewScanner(), p, data), r);
    }
  }

  /** Every pattern result comes from one of the regions, scanned and read, and shows a
      match of the pattern there. Regions not scanned, or whose read fails, contribute
      nothing. */
  lemma PatternResultsSound(s: MemoryScanner, p: Pattern, regions: seq<MemoryRegion>)
    ensures forall x :: x in PatternResults(s, p, regions) ==> x.region in regions && PatternResultFrom(s, p, x, x.region)
  {
    forall x | x in PatternResults(s, p, regions)
      ensures x.region in regions && PatternResultFrom(s, p, x, x.region)
    {
      ConcatMember(regions, PatternsOf(s, p), x);
      var k :| 0 <= k < |regions| && x in RegionPatternResults(s, p, regions[k]);
      RegionPatternResultsSound(s, p, regions[k]);
    }
  }

  lemma RegionPatternResultsComplete(s: MemoryScanner, p: Pattern, r: MemoryRegion, o: nat)
    requires |p.bytes| > 0 && RegionBytes(s, r).Some? && Matches(p, RegionBytes(s, r).value, o)
    ensures exists x :: x in RegionPatternResults(s, p, r) && x.region == r && x.address == r.baseAddress + o
  {
    var data := RegionBytes(s, r).value;
    var ms := Matchers.ScanPattern(Matchers.NewScanner(), p, data);
    HitsSpec(p, data);
    PatternResultsInComplete(r, p, data, ms, o);
  }

  lemma PatternResultsInComplete(r: MemoryRegion, p: Pattern, data: seq<byte>, ms: seq<PatternMatch>, o: nat)
    requires CompleteFrom(ms, p, data, 0) && Matches(p, data, o)
    ensures exists x :: x in PatternResultsIn(r, data, ms) && x.region == r && x.address == r.baseAddress + o
  {
    var j :| 0 <= j < |ms| && ms[j].offset == o;
    var x := PatternResultsIn(r, data, ms)[j];
    assert x in PatternResultsIn(r, data, ms) && x.region == r && x.address == r.baseAddress + o;
  }

  /** Every match in every scanned, readable region is reported. */
  lemma PatternResultsComplete(s: MemoryScanner, p: Pattern, regions: seq<MemoryRegion>, k: nat, o: nat)
    requires |p.bytes| > 0 && k < |regions| && RegionBytes(s, regions[k]).Some?
    requires Matches(p, RegionBytes(s, regions[k]).value, o)
    ensures exists x :: x in PatternResults(s, p, regions) && x.region == regions[k] && x.address == regions[k].baseAddress + o
  {
    RegionPatternResultsComplete(s, p, regions[k], o);
    var x :| x in RegionPatternResults(s, p, regions[k]) && x.region == regions[k] && x.address == regions[k].baseAddress + o;
    ConcatIncludes(regions, PatternsOf(s, p), k, x);
  }

  /** A parse error is reported as such, before any region is looked at. */
  lemma ScanPatternErrors(s: MemoryScanner, text: string)
    ensures ScanPatternSpec(s, text).Err? <==> Parse(text).Err?
    ensures Parse(text).Err? ==> ScanPatternSpec(s, text).error == PatternFailed(Parse(text).error)
  {
  }

  // `scan_bytes`

  function BytesResultsIn(r: MemoryRegion, needle: seq<byte>, offsets: seq<nat>): (rs: seq<ScanResult>)
    ensures |rs| == |offsets|
    ensures forall k :: 0 <= k < |offsets| ==> rs[k] == ScanResult(r.baseAddress + offsets[k], |needle|, r, BytesResult, needle)
  {
    if offsets == [] then [] else [ScanResult(r.baseAddress + offsets[0], |needle|, r, BytesResult, needle)] + BytesResultsIn(r, needle, offsets[1..])
  }

  /** What `scan_bytes` reports for one region. */
  function RegionBytesResults(s: MemoryScanner, needle: seq<byte>, r: MemoryRegion): seq<ScanResult>
  {
    match RegionBytes(s, r)
    case None => []
    case Some(data) => BytesResultsIn(r, needle, ByteHits(data, needle))
  }

  function BytesOf(s: MemoryScanner, needle: seq<byte>): MemoryRegion -> seq<ScanResult>
  {
    (r: MemoryRegion) => RegionBytesResults(s, needle, r)
  }

  function BytesResults(s: MemoryScanner, needle: seq<byte>, regions: seq<MemoryRegion>): seq<ScanResult>
  {
    Concat(regions, BytesOf(s, needle))
  }

  /** The inner loop of `scan_bytes`, for one region. */
  method PushBytesResults(r: MemoryRegion, needle: seq<byte>, offsets: seq<nat>) returns (rs: seq<ScanResult>)
    ensures rs == BytesResultsIn(r, needle, offsets)
  {
    rs := [];
    for k := 0 to |offsets|
      invariant |rs| == k
      invariant forall j :: 0 <= j < k ==> rs[j] == ScanResult(r.baseAddress + offsets[j], |needle|, r, BytesResult, needle)
    {
      rs := rs + [ScanResult(r.baseAddress + offsets[k], |needle|, r, BytesResult, needle)];
    }
    assert rs == BytesResultsIn(r, needle, offsets);
  }

  /** `scan_bytes`: every occurrence of the needle in every scanned region. It cannot
      fail, as enumerating never does. */
  method ScanBytes(s: MemoryScanner, needle: seq<byte>) returns (results: seq<ScanResult>)
    ensures results == BytesResults(s, needle, Committed(s.process.queries))
  {
    var regions := EnumerateRegions(s);
    results := [];
    for i := 0 to |regions|
      invariant results == BytesResults(s, needle, regions[..i])
    {
      var here := ScanRegionBytes(s, needle, regions[i]);
      assert here == BytesOf(s, needle)(regions[i]);
      ConcatStep(regions, BytesOf(s, needle), i);
      results := results + here;
    }
    assert regions[..|regions|] == regions;
  }

  /** The body of the region loop of `scan_bytes`. */
  method ScanRegionBytes(s: MemoryScanner, needle: seq<byte>, region: MemoryRegion) returns (here: seq<ScanResult>)
    ensures here == RegionBytesResults(s, needle, region)
  {
    here := [];
    if ShouldScanRegion(s.config, region) {
      var read := ReadMemory(s.process, region.baseAddress, region.size);
      if read.Ok? {
        var offsets := FindByteSequences(read.value, needle);
        here := PushBytesResults(region, needle, offsets);
      }
    }
  }

  /** An occurrence of the needle in one region's bytes: inside the region, at the
      result's offset from the region's base, and carried by the result. */
  predicate BytesHit(needle: seq<byte>, data: seq<byte>, x: ScanResult, r: MemoryRegion)
  {
    x.region == r && x.resultType == BytesResult && x.data == needle && x.size == |needle| &&
    ContainsAddress(r, x.address) && OccursAt(data, needle, x.address - r.baseAddress)
  }

  /** What a byte result says about its region: it was scanned and read, and the result
      is an occurrence of the needle in the bytes read. */
  ghost predicate BytesResultFrom(s: MemoryScanner, needle: seq<byte>, x: ScanResult, r: MemoryRegion)
  {
    RegionBytes(s, r).Some? && BytesHit(needle, RegionBytes(s, r).value, x, r)
  }

  lemma BytesResultsInSound(needle: seq<byte>, data: seq<byte>, offsets: seq<nat>, r: MemoryRegion)
    requires needle != [] && |data| == r.size
    requires forall k :: 0 <= k < |offsets| ==> OccursAt(data, needle, offsets[k])
    ensures forall x :: x in BytesResultsIn(r, needle, offsets) ==> BytesHit(needle, data, x, r)
  {
    var rs := BytesResultsIn(r, needle, offsets);
    forall k | 0 <= k < |rs|
      ensures BytesHit(needle, data, rs[k], r)
    {
      assert rs[k].address - r.baseAddress == offsets[k];
    }
  }

  lemma RegionBytesResultsSound(s: MemoryScanner, needle: seq<byte>, r: MemoryRegion)
    ensures forall x :: x in RegionBytesResults(s, needle, r) ==> BytesResultFrom(s, needle, x, r)
  {
    if RegionBytes(s, r).Some? && needle != [] {
      var data := RegionBytes(s, r).value;
      ByteHitsSpec(data, needle);
      var offs := ByteHits(data, needle);
      assert forall k :: 0 <= k < |offs| ==> offs[k] in offs;
      BytesResultsInSound(needle, data, offs, r);
    }
  }

  /** Every byte result is an occurrence of the needle in a scanned, readable region. */
  lemma BytesResultsSound(s: MemoryScanner, needle: seq<byte>, regions: seq<MemoryRegion>)
    ensures forall x :: x in BytesResults(s, needle, regions) ==> x.region in regions && BytesResultFrom(s, needle, x, x.region)
  {
    forall x | x in BytesResults(s, needle, regions)
      ensures x.region in regions && BytesResultFrom(s, needle, x, x.region)
    {
      ConcatMember(regions, BytesOf(s, needle), x);
      var k :| 0 <= k < |regions| && x in RegionBytesResults(s, needle, regions[k]);
      RegionBytesResultsSound(s, needle, regions[k]);
    }
  }

  /** Every occurrence of a non-empty needle in every scanned, readable region is reported. */
  lemma BytesResultsComplete(s: MemoryScanner, needle: seq<byte>, regions: seq<MemoryRegion>, k: nat, o: nat)
    requires needle != [] && k < |regions| && RegionBytes(s, regions[k]).Some?
    requires OccursAt(RegionBytes(s, regions[k]).value, needle, o)
    ensures exists x :: x in BytesResults(s, needle, regions) && x.region == regions[k] && x.address == regions[k].baseAddress + o
  {
    var data := RegionBytes(s, regions[k]).value;
    ByteHitsSpec(data, needle);
    var offs := ByteHits(data, needle);
    var j :| 0 <= j < |offs| && offs[j] == o;
    var x := RegionBytesResults(s, needle, regions[k])[j];
    ConcatIncludes(regions, BytesOf(s, needle), k, x);
  }

  // `scan_vtables`

  /** The tables one region holds, scanned with the default table scanner. */
  function RegionTables(s: MemoryScanner, r: MemoryRegion): seq<VTables.TableValue>
  {
    match RegionBytes(s, r)
    case None => []
    case Some(data) => VTables.ScanFrom(VTables.DefaultConfig, data, r.baseAddress, 0)
  }

  function TablesOf(s: MemoryScanner): MemoryRegion -> seq<VTables.TableValue>
  {
    (r: MemoryRegion) => RegionTables(s, r)
  }

  function TablesIn(s: MemoryScanner, regions: seq<MemoryRegion>): seq<VTables.TableValue>
  {
    Concat(regions, TablesOf(s))
  }

  /** `scan_vtables`: every scanned region's tables, in region order. It cannot fail.
      The tables are returned as values: the caller owns them and nothing else refers
      to them. */
  method ScanVTables(s: MemoryScanner) returns (tables: seq<VTables.TableValue>)
    ensures tables == TablesIn(s, Committed(s.process.queries))
  {
    var regions := EnumerateRegions(s);
    var scanner := VTables.NewVTableScanner();
    tables := [];
    for i := 0 to |regions|
      invariant tables == TablesIn(s, regions[..i])
    {
      ConcatStep(regions, TablesOf(s), i);
      var found := ScanRegionTables(s, scanner, regions[i]);
      tables := tables + found;
    }
    assert regions[..|regions|] == regions;
  }

  /** The body of the region loop of `scan_vtables`. */
  method ScanRegionTables(s: MemoryScanner, scanner: VTables.VTableScanner, region: MemoryRegion)
    returns (found: seq<VTables.TableValue>)
    requires scanner == VTables.NewVTableScanner()
    ensures found == TablesOf(s)(region)
  {
    found := [];
    if ShouldScanRegion(s.config, region) {
      var read := ReadMemory(s.process, region.baseAddress, region.size);
      if read.Ok? {
        var vts := VTables.ScanVTables(scanner, read.value, region.baseAddress);
        found := VTables.Values(vts);
      }
    }
  }

  /** A table lies in its region a whole slot inside it, and has 2 to 256 functions. */
  ghost predicate TableInRegion(t: VTables.TableValue, r: MemoryRegion)
  {
    ContainsAddress(r, t.base) && t.base + PointerSize <= EndAddress(r) && 2 <= |t.functions| <= 256
  }

  lemma RegionTablesSpec(s: MemoryScanner, r: MemoryRegion)
    ensures forall t :: t in RegionTables(s, r) ==> RegionBytes(s, r).Some? && TableInRegion(t, r)
  {
    if RegionBytes(s, r).Some? {
      var data := RegionBytes(s, r).value;
      forall t | t in VTables.ScanFrom(VTables.DefaultConfig, data, r.baseAddress, 0)
        ensures TableInRegion(t, r)
      {
        VTables.ScanFromMember(VTables.DefaultConfig, data, r.baseAddress, t);
      }
    }
  }

  /** Every table found lies in a scanned, readable region. */
  lemma TablesInSpec(s: MemoryScanner, regions: seq<MemoryRegion>)
    ensures forall t :: t in TablesIn(s, regions) ==>
              exists k :: 0 <= k < |regions| && RegionBytes(s, regions[k]).Some? && TableInRegion(t, regions[k])
  {
    forall t | t in TablesIn(s, regions)
      ensures exists k :: 0 <= k < |regions| && RegionBytes(s, regions[k]).Some? && TableInRegion(t, regions[k])
    {
      ConcatMember(regions, TablesOf(s), t);
      var k :| 0 <= k < |regions| && t in RegionTables(s, regions[k]);
      RegionTablesSpec(s, regions[k]);
    }
  }

  /** The converse: in a scanned region whose read succeeds, the candidate at every
      eight-byte-aligned offset with a whole slot left is one of the tables found. */
  lemma TablesInComplete(s: MemoryScanner, regions: seq<MemoryRegion>, k: nat, j: nat, t: VTables.TableValue)
    requires k < |regions| && RegionBytes(s, regions[k]).Some?
    requires j % PointerSize == 0 && j + PointerSize <= regions[k].size
    requires VTables.Candidate(VTables.DefaultConfig, RegionBytes(s, regions[k]).value, regions[k].baseAddress, j) == Some(t)
    ensures t in TablesIn(s, regions)
  {
    var data := RegionBytes(s, regions[k]).value;
    VTables.ScanComplete(VTables.DefaultConfig, data, regions[k].baseAddress, j, t);
    ConcatIncludes(regions, TablesOf(s), k, t);
  }

  // ---------------------------------------------------------------------------
  // `comprehensive_scan` and its statistics

  datatype ComprehensiveScanResult = ComprehensiveScanResult(patternMatches: seq<ScanResult>,
                                                             vtables: seq<VTables.TableValue>,
                                                             memoryRegions: seq<MemoryRegion>)

  /** The pattern results of each text in turn, stopping at the first parse error. */
  function AllPatternResults(s: MemoryScanner, texts: seq<string>): Result<seq<ScanResult>, MemoryError>
  {
    if texts == [] then Ok([])
    else
      match ScanPatternSpec(s, texts[0])
      case Err(e) => Err(e)
      case Ok(rs) =>
        match AllPatternResults(s, texts[1..])
        case Err(e) => Err(e)
        case Ok(more) => Ok(rs + more)
  }

  function ComprehensiveSpec(s: MemoryScanner, texts: seq<string>): Result<ComprehensiveScanResult, MemoryError>
  {
    match AllPatternResults(s, texts)
    case Err(e) => Err(e)
    case Ok(ms) =>
      var regions := Committed(s.process.queries);
      Ok(ComprehensiveScanResult(ms, TablesIn(s, regions), regions))
  }

  lemma AllPatternResultsStep(s: MemoryScanner, texts: seq<string>, i: nat)
    requires i < |texts|
    ensures AllPatternResults(s, texts[i..])
         == match ScanPatternSpec(s, texts[i])
            case Err(e) => Err(e)
            case Ok(rs) =>
              match AllPatternResults(s, texts[i + 1..])
              case Err(e) => Err(e)
              case Ok(more) => Ok(rs + more)
  {
    assert texts[i..][0] == texts[i] && texts[i..][1..] == texts[i + 1..];
  }

  /** Prefixing `rs` to a successful result. */
  function PrependResults(rs: seq<ScanResult>, r: Result<seq<ScanResult>, MemoryError>): Result<seq<ScanResult>, MemoryError>
  {
    match r
    case Err(e) => Err(e)
    case Ok(more) => Ok(rs + more)
  }

  lemma PrependResultsTwice(a: seq<ScanResult>, b: seq<ScanResult>, r: Result<seq<ScanResult>, MemoryError>)
    ensures PrependResults(a, PrependResults(b, r)) == PrependResults(a + b, r)
  {
    if r.Ok? {
      assert a + (b + r.value) == (a + b) + r.value;
    }
  }

  /** `comprehensive_scan`: each pattern in turn (the first parse error is returned),
      then the tables and the regions. */
  method ComprehensiveScan(s: MemoryScanner, texts: seq<string>) returns (r: Result<ComprehensiveScanResult, MemoryError>)
    ensures r == ComprehensiveSpec(s, texts)
  {
    var results: seq<ScanResult> := [];
    assert texts[0..] == texts;
    assert PrependResults(results, AllPatternResults(s, texts)) == AllPatternResults(s, texts) by {
      if AllPatternResults(s, texts).Ok? {
        assert [] + AllPatternResults(s, texts).value == AllPatternResults(s, texts).value;
      }
    }
    for i := 0 to |texts|
      invariant AllPatternResults(s, texts) == PrependResults(results, AllPatternResults(s, texts[i..]))
    {
      var found := ScanPattern(s, texts[i]);
      AllPatternResultsStep(s, texts, i);
      if found.Err? {
        return Err(found.error);
      }
      PrependResultsTwice(results, found.value, AllPatternResults(s, texts[i + 1..]));
      results := results + found.value;
    }
    assert texts[|texts|..] == [];
    assert results + [] == results;
    var tables := ScanVTables(s);
    var regions := EnumerateRegions(s);
    return Ok(ComprehensiveScanResult(results, tables, regions));
  }

  datatype ScanStatistics = ScanStatistics(totalRegions: nat, executableRegions: nat, readableRegions: nat,
                                           writableRegions: nat, patternMatches: nat, vtablesFound: nat,
                                           totalVirtualFunctions: nat)

  /** How many regions satisfy `f`. */
  function CountWhere(rs: seq<MemoryRegion>, f: MemoryRegion -> bool): (n: nat)
    ensures n <= |rs|
  {
    if rs == [] then 0 else (if f(rs[0]) then 1 else 0) + CountWhere(rs[1..], f)
  }

  /** The total number of functions of the tables. */
  function FunctionTotal(ts: seq<VTables.TableValue>): nat
  {
    if ts == [] then 0 else |ts[0].functions| + FunctionTotal(ts[1..])
  }

  /** `ComprehensiveScanResult::statistics`. */
  function Statistics(c: ComprehensiveScanResult): (st: ScanStatistics)
    ensures st.totalRegions == |c.memoryRegions| && st.patternMatches == |c.patternMatches| &&
            st.vtablesFound == |c.vtables|
    ensures st.executableRegions <= st.totalRegions && st.readableRegions <= st.totalRegions &&
            st.writableRegions <= st.totalRegions
  {
    ScanStatistics(|c.memoryRegions|, CountWhere(c.memoryRegions, IsExecutable), CountWhere(c.memoryRegions, IsReadable),
                   CountWhere(c.memoryRegions, IsWritable), |c.patternMatches|, |c.vtables|, FunctionTotal(c.vtables))
  }

  /** A count can only grow when the criterion is weakened. */
  lemma {:induction false} CountWhereMonotone(rs: seq<MemoryRegion>, f: MemoryRegion -> bool, g: MemoryRegion -> bool)
    requires forall r :: f(r) ==> g(r)
    ensures CountWhere(rs, f) <= CountWhere(rs, g)
  {
    if rs != [] {
      CountWhereMonotone(rs[1..], f, g);
    }
  }

  /** There are never more writable regions than readable ones. */
  lemma WritableAtMostReadable(c: ComprehensiveScanResult)
    ensures Statistics(c).writableRegions <= Statistics(c).readableRegions
  {
    CountWhereMonotone(c.memoryRegions, IsWritable, IsReadable);
  }

  lemma {:induction false} FunctionTotalAtLeast(ts: seq<VTables.TableValue>, m: nat)
    requires forall t :: t in ts ==> m <= |t.functions|
    ensures FunctionTotal(ts) >= m * |ts|
  {
    if ts != [] {
      assert ts[0] in ts;
      assert forall t :: t in ts[1..] ==> t in ts;
      FunctionTotalAtLeast(ts[1..], m);
      assert m * |ts| == m * |ts[1..]| + m;
    }
  }

  /** Statistics of a whole scan: the regions are all committed ones, and as every table
      has at least two functions there are at least twice as many functions as tables. */
  lemma ComprehensiveStatistics(s: MemoryScanner, texts: seq<string>)
    requires ComprehensiveSpec(s, texts).Ok?
    ensures var st := Statistics(ComprehensiveSpec(s, texts).value);
            st.totalRegions == |Committed(s.process.queries)| &&
            st.totalVirtualFunctions >= 2 * st.vtablesFound &&
            st.writableRegions <= st.readableRegions
  {
    var c := ComprehensiveSpec(s, texts).value;
    TablesInSpec(s, Committed(s.process.queries));
    FunctionTotalAtLeast(c.vtables, 2);
    WritableAtMostReadable(c);
  }

  // ---------------------------------------------------------------------------
  // `ScanResult::hexdump`

  /** The two-digit codes of the bytes, single spaces between them. */
  function HexBytes(c: seq<byte>): string
  {
    if c == [] then "" else if |c| == 1 then Hex02(c[0]) else Hex02(c[0]) + " " + HexBytes(c[1..])
  }

  /** The ASCII column: graphic bytes as themselves, everything else (space included) as `.`. */
  function AsciiColumn(c: seq<byte>): (s: string)
    ensures |s| == |c|
    ensures forall k :: 0 <= k < |c| ==> s[k] == if IsAsciiGraphic(c[k]) then c[k] as char else '.'
  {
    if c == [] then "" else [if IsAsciiGraphic(c[0]) then c[0] as char else '.'] + AsciiColumn(c[1..])
  }

  /** One line: `{:08X}`, two spaces, the codes left-aligned in 47 columns, ` |`, the
      ASCII column and `|`. */
  function HexdumpLine(c: seq<byte>, address: nat): string
  {
    Line(Hex08(address), HexBytes(c), AsciiColumn(c))
  }

  /** The `{:08X}  {:<47} |{}|` layout of an address field, a code field and an ASCII column. */
  function Line(hex: string, codes: string, ascii: string): string
  {
    hex + "  " + PadRight(codes, 47) + " |" + ascii + "|"
  }

  /** `chunks(16)`: consecutive 16-byte pieces, the last one possibly shorter. */
  function Chunks(data: seq<byte>): seq<seq<byte>>
    decreases |data|
  {
    if data == [] then []
    else if |data| <= 16 then [data]
    else [data[..16]] + Chunks(data[16..])
  }

  /** There are `ceil(|data| / 16)` chunks, and chunk `i` is the bytes from `16 * i` up to
      the next multiple of 16 or the end. */
  lemma {:induction false} ChunksSpec(data: seq<byte>)
    ensures |Chunks(data)| == (|data| + 15) / 16
    ensures forall i :: 0 <= i < |Chunks(data)| ==>
              16 * i < |data| && Chunks(data)[i] == data[16 * i..if 16 * i + 16 <= |data| then 16 * i + 16 else |data|]
    decreases |data|
  {
    if |data| <= 16 {
      assert data[0..|data|] == data;
    } else {
      var rest := data[16..];
      ChunksSpec(rest);
      var cs := Chunks(data);
      forall i | 0 <= i < |cs|
        ensures 16 * i < |data| && cs[i] == data[16 * i..if 16 * i + 16 <= |data| then 16 * i + 16 else |data|]
      {
        if i > 0 {
          var j := i - 1;
          assert cs[i] == Chunks(rest)[j];
          var hi := if 16 * j + 16 <= |rest| then 16 * j + 16 else |rest|;
          assert rest[16 * j..hi] == data[16 * i..hi + 16];
        }
      }
    }
  }

  /** The lines of the dump: the `i`-th chunk at `address + 16 * i`. */
  function HexdumpLines(data: seq<byte>, address: nat): seq<string>
  {
    var cs := Chunks(data);
    seq(|cs|, i requires 0 <= i < |cs| => HexdumpLine(cs[i], address + 16 * i))
  }

  function Hexdump(r: ScanResult): string
  {
    Join(HexdumpLines(r.data, r.address), "\n")
  }

  /** There are `ceil(|data| / 16)` lines; line `i` shows the chunk starting at byte
      `16 * i`, addressed `address + 16 * i`. */
  lemma HexdumpLinesSpec(data: seq<byte>, address: nat)
    ensures |HexdumpLines(data, address)| == (|data| + 15) / 16
    ensures forall i :: 0 <= i < |HexdumpLines(data, address)| ==>
              16 * i < |data| &&
              HexdumpLines(data, address)[i] ==
                HexdumpLine(data[16 * i..if 16 * i + 16 <= |data| then 16 * i + 16 else |data|], address + 16 * i)
  {
    ChunksSpec(data);
  }

  /** The codes of `c` take `3 |c| - 1` characters, and the two at `3 k` read back as
      byte `k`. */
  lemma {:induction false} HexBytesSpec(c: seq<byte>)
    requires c != []
    ensures |HexBytes(c)| == 3 * |c| - 1
    ensures forall k :: 0 <= k < |c| ==> HexBytes(c)[3 * k..3 * k + 2] == Hex02(c[k])
  {
    if |c| > 1 {
      HexBytesSpec(c[1..]);
      forall k | 0 <= k < |c|
        ensures HexBytes(c)[3 * k..3 * k + 2] == Hex02(c[k])
      {
        if k > 0 {
          HexBytesTail(c, k);
          assert c[1..][k - 1] == c[k];
        }
      }
    }
  }

  /** Past the first code and its space, the codes of `c` are those of its tail. */
  lemma HexBytesTail(c: seq<byte>, k: nat)
    requires 0 < k < |c| && |HexBytes(c[1..])| == 3 * |c| - 4
    ensures HexBytes(c)[3 * k..3 * k + 2] == HexBytes(c[1..])[3 * (k - 1)..3 * (k - 1) + 2]
  {
    SliceAfterPrefix(Hex02(c[0]) + " ", HexBytes(c[1..]), 3 * k, 3 * k + 2);
  }

  /** A slice lying past a prefix is a slice of what follows the prefix. */
  lemma SliceAfterPrefix(a: string, t: string, i: nat, j: nat)
    requires |a| <= i <= j <= |a| + |t|
    ensures (a + t)[i..j] == t[i - |a|..j - |a|]
  {
    var l, r := (a + t)[i..j], t[i - |a|..j - |a|];
    assert |l| == |r|;
    forall n | 0 <= n < |l|
      ensures l[n] == r[n]
    {
    }
  }

  lemma {:induction false} HexBytesLength(c: seq<byte>)
    requires c != []
    ensures |HexBytes(c)| == 3 * |c| - 1
  {
    if |c| > 1 {
      HexBytesLength(c[1..]);
    }
  }

  /** Leading zeros do not change a hex value. */
  lemma {:induction false} HexValueLeadingZero(s: string)
    requires AllHexDigits(s)
    ensures AllHexDigits("0" + s) && HexValue("0" + s) == HexValue(s)
    decreases |s|
  {
    var z := "0" + s;
    assert forall k :: 0 <= k < |z| ==> IsHexDigit(z[k]) by {
      forall k | 0 <= k < |z| ensures IsHexDigit(z[k]) { if k > 0 { assert z[k] == s[k - 1]; } }
    }
    if s != [] {
      var init := s[..|s| - 1];
      HexValueLeadingZero(init);
      assert z[..|z| - 1] == "0" + init;
      assert z[|z| - 1] == s[|s| - 1];
    } else {
      assert z[..0] == [];
    }
  }

  lemma {:induction false} PadZerosValue(s: string, width: nat)
    requires AllHexDigits(s)
    ensures AllHexDigits(PadLeft(s, width, '0')) && HexValue(PadLeft(s, width, '0')) == HexValue(s)
    decreases width - |s|
  {
    if |s| < width {
      HexValueLeadingZero(s);
      PadZerosValue(['0'] + s, width);
    }
  }

  /** Where the fields of a line sit: the address field first, code `k` at `3 k` in the
      47-column code field two characters later, the ASCII column after that field and
      ` |`, and `|` last. */
  lemma LineLayout(hex: string, hb: string, ascii: string, n: nat)
    requires 1 <= n <= 16 && |hb| == 3 * n - 1 && |ascii| == n
    ensures var line := Line(hex, hb, ascii);
            |line| == |hex| + 52 + n && line[..|hex|] == hex && line[|line| - 1] == '|' &&
            forall k :: 0 <= k < n ==>
              line[|hex| + 2 + 3 * k..|hex| + 2 + 3 * k + 2] == hb[3 * k..3 * k + 2] &&
              line[|hex| + 51 + k] == ascii[k]
  {
    var line := Line(hex, hb, ascii);
    LineFields(hex, hb, ascii);
    CodesOfField(line, hb, |hex| + 2, n);
    ElementsOfField(line, ascii, |hex| + 51);
  }

  /** Where the fields of a line sit: the address field first, the codes two characters
      later, the ASCII column after the 47-column code field and ` |`, and `|` last. */
  lemma LineFields(hex: string, hb: string, ascii: string)
    requires |hb| <= 47
    ensures var line := Line(hex, hb, ascii);
            |line| == |hex| + 2 + 47 + 2 + |ascii| + 1 &&
            line[..|hex|] == hex &&
            line[|hex| + 2..|hex| + 2 + |hb|] == hb &&
            line[|hex| + 51..|hex| + 51 + |ascii|] == ascii &&
            line[|line| - 1] == '|'
  {
    var field := PadRight(hb, 47);
    var line := hex + "  " + field + " |" + ascii + "|";
    assert line[|hex| + 2..|hex| + 2 + |hb|] == field[..|hb|];
    assert line[|hex| + 51..|hex| + 51 + |ascii|] == ascii;
  }

  /** Code `k` of a field placed at `at` sits at `at + 3 k`. */
  lemma CodesOfField(line: string, hb: string, at: nat, n: nat)
    requires 1 <= n && |hb| == 3 * n - 1 && at + |hb| <= |line| && line[at..at + |hb|] == hb
    ensures forall k :: 0 <= k < n ==> line[at + 3 * k..at + 3 * k + 2] == hb[3 * k..3 * k + 2]
  {
    forall k | 0 <= k < n
      ensures line[at + 3 * k..at + 3 * k + 2] == hb[3 * k..3 * k + 2]
    {
      SliceOfSlice(line, at, at + |hb|, 3 * k, 3 * k + 2);
    }
  }

  /** Character `k` of a field placed at `at` sits at `at + k`. */
  lemma ElementsOfField(line: string, f: string, at: nat)
    requires at + |f| <= |line| && line[at..at + |f|] == f
    ensures forall k :: 0 <= k < |f| ==> line[at + k] == f[k]
  {
    forall k | 0 <= k < |f|
      ensures line[at + k] == f[k]
    {
      assert line[at..at + |f|][k] == line[at + k];
    }
  }

  /** A slice of a slice is a slice of the whole. */
  lemma SliceOfSlice(s: string, a: nat, b: nat, x: nat, y: nat)
    requires a <= b <= |s| && x <= y <= b - a
    ensures s[a..b][x..y] == s[a + x..a + y]
  {
    var l, r := s[a..b][x..y], s[a + x..a + y];
    assert |l| == |r|;
    forall i | 0 <= i < |l|
      ensures l[i] == r[i]
    {
    }
  }

  /** A line reads back as what it shows: its leading hex field is the address, the
      two characters for byte `k` of the chunk are that byte's `{:02X}` code (which reads
      back as the byte), and the ASCII column renders byte `k` as itself or `.`. */
  lemma HexdumpLineSpec(c: seq<byte>, address: nat)
    requires 1 <= |c| <= 16
    ensures var line := HexdumpLine(c, address);
            var h := |Hex08(address)|;
            h >= 8 && |line| == h + 52 + |c| &&
            AllHexDigits(line[..h]) && HexValue(line[..h]) == address &&
            CodesShown(line, h + 2, c) && AsciiShown(line, h + 51, c) &&
            line[|line| - 1] == '|'
  {
    var hex := Hex08(address);
    Hex08Spec(address);
    LineAddress(hex, c, address);
    LineCodes(hex, c);
    LineAscii(hex, c);
    assert HexdumpLine(c, address) == Line(hex, HexBytes(c), AsciiColumn(c));
  }

  /** From column `at` on, `line` shows the `{:02X}` code of byte `k` of `c` at `at + 3 k`. */
  predicate CodesShown(line: string, at: nat, c: seq<byte>)
  {
    at + 3 * |c| <= |line| + 1 &&
    forall k :: 0 <= k < |c| ==> line[at + 3 * k..at + 3 * k + 2] == Hex02(c[k])
  }

  /** From column `at` on, `line` shows byte `k` of `c` as itself when graphic and as `.`
      otherwise, at `at + k`. */
  predicate AsciiShown(line: string, at: nat, c: seq<byte>)
  {
    at + |c| <= |line| &&
    forall k :: 0 <= k < |c| ==> line[at + k] == if IsAsciiGraphic(c[k]) then c[k] as char else '.'
  }

  /** `{:08X}` is at least eight hex digits and reads back as the address. */
  lemma Hex08Spec(address: nat)
    ensures |Hex08(address)| >= 8 && AllHexDigits(Hex08(address)) && HexValue(Hex08(address)) == address
  {
    PadZerosValue(HexUpper(address), 8);
    HexUpperRoundTrip(address);
  }

  lemma LineAddress(hex: string, c: seq<byte>, address: nat)
    requires 1 <= |c| <= 16 && AllHexDigits(hex) && HexValue(hex) == address
    ensures var line := Line(hex, HexBytes(c), AsciiColumn(c));
            |line| == |hex| + 52 + |c| && line[|line| - 1] == '|' &&
            AllHexDigits(line[..|hex|]) && HexValue(line[..|hex|]) == address
  {
    HexBytesLength(c);
    LineLayout(hex, HexBytes(c), AsciiColumn(c), |c|);
  }

  lemma LineCodes(hex: string, c: seq<byte>)
    requires 1 <= |c| <= 16
    ensures CodesShown(Line(hex, HexBytes(c), AsciiColumn(c)), |hex| + 2, c)
  {
    HexBytesSpec(c);
    LineLayout(hex, HexBytes(c), AsciiColumn(c), |c|);
  }

  lemma LineAscii(hex: string, c: seq<byte>)
    requires 1 <= |c| <= 16
    ensures AsciiShown(Line(hex, HexBytes(c), AsciiColumn(c)), |hex| + 51, c)
  {
    HexBytesLength(c);
    LineLayout(hex, HexBytes(c), AsciiColumn(c), |c|);
  }

  // ---------------------------------------------------------------------------
  // `RegionFilter`

  /** One criterion a filter can hold. */
  datatype Criterion = Executable | Readable | Writable | MinSize(size: nat) | AddressRange(start: nat, end: nat)

  datatype RegionFilter = RegionFilter(criteria: seq<Criterion>)

  predicate Holds(c: Criterion, r: MemoryRegion)
  {
    match c
    case Executable => IsExecutable(r)
    case Readable => IsReadable(r)
    case Writable => IsWritable(r)
    case MinSize(size) => r.size >= size
    case AddressRange(start, end) => r.baseAddress >= start && EndAddress(r) <= end
  }

  function NewFilter(): (f: RegionFilter)
    ensures f.criteria == []
  {
    RegionFilter([])
  }

  /** Each builder adds one criterion at the end. */
  function AddCriterion(f: RegionFilter, c: Criterion): (g: RegionFilter)
    ensures g.criteria == f.criteria + [c]
  {
    RegionFilter(f.criteria + [c])
  }

  /** `RegionFilter::matches`: every criterion in turn. */
  function FilterMatches(f: RegionFilter, r: MemoryRegion): (b: bool)
    ensures b <==> forall k :: 0 <= k < |f.criteria| ==> Holds(f.criteria[k], r)
    decreases |f.criteria|
  {
    if f.criteria == [] then true
    else
      assert forall k :: 1 <= k < |f.criteria| ==> f.criteria[k] == f.criteria[1..][k - 1];
      Holds(f.criteria[0], r) && FilterMatches(RegionFilter(f.criteria[1..]), r)
  }

  /** Adding a criterion narrows the filter by exactly that criterion; the empty filter
      accepts every region. */
  lemma AddCriterionSpec(f: RegionFilter, c: Criterion, r: MemoryRegion)
    ensures FilterMatches(AddCriterion(f, c), r) <==> FilterMatches(f, r) && Holds(c, r)
    ensures FilterMatches(NewFilter(), r)
  {
    var g := AddCriterion(f, c);
    assert forall k :: 0 <= k < |f.criteria| ==> g.criteria[k] == f.criteria[k];
    assert g.criteria[|f.criteria|] == c;
  }

  /** `filter_regions`: the matching regions, in their order. */
  function FilterRegions(f: RegionFilter, rs: seq<MemoryRegion>): (out: seq<MemoryRegion>)
    ensures |out| <= |rs|
    ensures forall r :: r in out <==> r in rs && FilterMatches(f, r)
  {
    if rs == [] then [] else (if FilterMatches(f, rs[0]) then [rs[0]] else []) + FilterRegions(f, rs[1..])
  }

  /** Filtering keeps the order: it distributes over concatenation. */
  lemma {:induction false} FilterRegionsAppend(f: RegionFilter, a: seq<MemoryRegion>, b: seq<MemoryRegion>)
    ensures FilterRegions(f, a + b) == FilterRegions(f, a) + FilterRegions(f, b)
  {
    if a != [] {
      assert (a + b)[1..] == a[1..] + b;
      FilterRegionsAppend(f, a[1..], b);
    } else {
      assert a + b == b;
    }
  }

  /** `executable().readable().min_size(0x800)` accepts an `R-X` region of 0x1000 bytes;
      `writable()` rejects it. */
  lemma FilterExample()
    ensures var r := MemoryRegion(0x1000, 0x1000, ExecuteRead, Commit, Private);
            FilterMatches(AddCriterion(AddCriterion(AddCriterion(NewFilter(), Executable), Readable), MinSize(0x800)), r) &&
            !FilterMatches(AddCriterion(NewFilter(), Writable), r)
  {
    var r := MemoryRegion(0x1000, 0x1000, ExecuteRead, Commit, Private);
    var f := AddCriterion(AddCriterion(AddCriterion(NewFilter(), Executable), Readable), MinSize(0x800));
    assert f.criteria == [Executable, Readable, MinSize(0x800)];
    var g := AddCriterion(NewFilter(), Writable);
    assert g.criteria[0] == Writable;
  }
}
