/** The analysis engine: byte heuristics that classify code and data, per-function
    scoring, string extraction, derived structure and code-pattern records, and the
    pipeline that combines a comprehensive memory scan with them. Confidences are
    kept in integer tenths. */
module Analysis {
  import opened Common
  import Patterns
  import Memory
  import VTables
  import VTableAnalysis

  // ---------------------------------------------------------------------------
  // Records

  datatype CallingConvention = UnknownConvention | Cdecl | Stdcall | Fastcall | Thiscall | Vectorcall

  datatype DataType =
    | UnknownType | Void | Bool | Int8 | UInt8 | Int16 | UInt16 | Int32 | UInt32 | Int64 | UInt64
    | Float32 | Float64 | Pointer(target: DataType) | ArrayOf(element: DataType, length: nat)
    | Struct(structName: string) | Class(className: string)

  datatype ParameterLocation = Register(register: string) | Stack(offset: int) | UnknownLocation

  datatype Parameter = Parameter(index: nat, dataType: DataType, location: ParameterLocation)

  /** A function found in the target; `confidence` is in tenths. */
  datatype DiscoveredFunction = DiscoveredFunction(
    address: nat, size: Option<nat>, name: Option<string>, callingConvention: CallingConvention,
    parameters: seq<Parameter>, returnType: Option<DataType>, confidence: nat,
    references: seq<nat>, xrefsTo: seq<nat>, xrefsFrom: seq<nat>)

  datatype StructField = StructField(name: string, offset: nat, dataType: DataType, size: nat)

  datatype DiscoveredStruct = DiscoveredStruct(name: string, size: nat, fields: seq<StructField>,
                                               vtableOffset: Option<nat>, baseClasses: seq<string>,
                                               confidence: nat)

  datatype StringEncoding = Ascii | Unicode | Utf8

  datatype StringReference = StringReference(address: nat, value: string, encoding: StringEncoding,
                                             references: seq<nat>)

  datatype ImportEntry = ImportEntry(moduleName: string, functionName: string, address: nat, ordinal: Option<nat>)

  datatype ExportEntry = ExportEntry(name: string, address: nat, ordinal: nat)

  datatype PatternType =
    | FunctionPrologue | FunctionEpilogue | VirtualCall | SystemCall | StringPattern
    | JumpTable | ExceptionHandler | Custom(customName: string)

  datatype CodePattern = CodePattern(patternType: PatternType, addresses: seq<nat>, description: string,
                                     confidence: nat)

  datatype AnalysisStatistics = AnalysisStatistics(
    totalFunctions: nat, highConfidenceFunctions: nat, totalStructures: nat, vtablesAnalyzed: nat,
    stringReferences: nat, codePatterns: nat, analysisTimeMs: nat)

  /** The result of `analyze`; the class hierarchy is kept as its map of classes. */
  datatype AnalysisResult = AnalysisResult(
    functions: seq<DiscoveredFunction>, structures: seq<DiscoveredStruct>,
    classes: map<nat, VTableAnalysis.ClassInfo>, stringReferences: seq<StringReference>,
    importTable: seq<ImportEntry>, exportTable: seq<ExportEntry>, codePatterns: seq<CodePattern>,
    statistics: AnalysisStatistics)

  datatype AddressType = FunctionEntry | DataPointer | StringData | UnknownData

  datatype AddressAnalysis = AddressAnalysis(address: nat, analysisType: AddressType, confidence: nat,
                                             data: seq<byte>)

  /** The failures of the engine; a memory or scan failure carries the error it wraps. */
  datatype AnalysisError =
    | MemoryError(cause: Memory.MemoryError)
    | PatternError(error: Patterns.PatternError)
    | ScanError(cause: Memory.MemoryError)
    | AnalysisFailed(reason: string)

  // ---------------------------------------------------------------------------
  // Configuration and the engine

  /** `AnalysisConfig`; the threshold is in tenths. */
  datatype AnalysisConfig = AnalysisConfig(confidenceThreshold: nat, maxAnalysisDepth: nat,
                                           includeLowConfidence: bool, priorityPatterns: seq<string>,
                                           enableCrossReference: bool)

  /** Threshold 0.7, depth 5, low-confidence results off, no priority patterns,
      cross-referencing on. */
  const DefaultAnalysisConfig: AnalysisConfig := AnalysisConfig(7, 5, false, [], true)

  /** `PatternDatabase`: the pattern texts of each kind. */
  datatype PatternDatabase = PatternDatabase(patterns: map<PatternType, seq<string>>)

  const ProloguePatterns: seq<string> := ["55 48 89 E5", "48 83 EC ??", "48 89 5C 24 ??"]

  const EpiloguePatterns: seq<string> := ["48 83 C4 ?? 5D C3", "5D C3", "C3"]

  /** `PatternDatabase::new`: three prologue and three epilogue patterns. */
  function NewPatternDatabase(): (db: PatternDatabase)
    ensures db.patterns.Keys == {FunctionPrologue, FunctionEpilogue}
    ensures db.patterns[FunctionPrologue] == ProloguePatterns
    ensures db.patterns[FunctionEpilogue] == EpiloguePatterns
  {
    PatternDatabase(map[FunctionPrologue := ProloguePatterns, FunctionEpilogue := EpiloguePatterns])
  }

  /** `order` visits every kind of the database exactly once: the map's iteration order. */
  predicate IsKeyOrder(db: PatternDatabase, order: seq<PatternType>)
  {
    (forall k :: 0 <= k < |order| ==> order[k] in db.patterns) &&
    (forall t :: t in db.patterns ==> t in order) &&
    (forall a, b :: 0 <= a < b < |order| ==> order[a] != order[b])
  }

  /** The texts of the kinds in `order`, one kind after another. */
  function Flatten(db: PatternDatabase, order: seq<PatternType>): seq<string>
    requires forall k :: 0 <= k < |order| ==> order[k] in db.patterns
  {
    if order == [] then [] else db.patterns[order[0]] + Flatten(db, order[1..])
  }

  /** `get_common_patterns`: every text of every kind, kinds in the map's order. */
  function CommonPatterns(db: PatternDatabase, order: seq<PatternType>): (texts: seq<string>)
    requires IsKeyOrder(db, order)
    ensures forall x :: x in texts <==> exists t :: t in db.patterns && x in db.patterns[t]
  {
    FlattenSpec(db, order);
    Flatten(db, order)
  }

  lemma {:induction false} FlattenSpec(db: PatternDatabase, order: seq<PatternType>)
    requires forall k :: 0 <= k < |order| ==> order[k] in db.patterns
    ensures forall x :: x in Flatten(db, order) <==> exists k :: 0 <= k < |order| && x in db.patterns[order[k]]
  {
    if order != [] {
      FlattenSpec(db, order[1..]);
      forall x | exists k :: 0 <= k < |order| && x in db.patterns[order[k]]
        ensures x in Flatten(db, order)
      {
        var k :| 0 <= k < |order| && x in db.patterns[order[k]];
        if k > 0 {
          assert order[1..][k - 1] == order[k];
        }
      }
      forall x | x in Flatten(db, order[1..])
        ensures exists k :: 0 <= k < |order| && x in db.patterns[order[k]]
      {
        var k :| 0 <= k < |order[1..]| && x in db.patterns[order[1..][k]];
        assert order[k + 1] == order[1..][k];
      }
    }
  }

  /** `test_pattern_database`: whichever kind the map yields first, the six texts are
      there, and the first prologue is recognised. */
  lemma CommonPatternsExample(order: seq<PatternType>)
    requires IsKeyOrder(NewPatternDatabase(), order)
    ensures var texts := CommonPatterns(NewPatternDatabase(), order);
            texts != [] && (forall x :: x in ProloguePatterns ==> x in texts) &&
            (forall x :: x in EpiloguePatterns ==> x in texts)
    ensures IsFunctionPrologue([0x55, 0x48, 0x89, 0xE5])
  {
    var db := NewPatternDatabase();
    var texts := CommonPatterns(db, order);
    assert ProloguePatterns[0] in db.patterns[FunctionPrologue];
    assert ProloguePatterns[0] in texts;
  }

  /** `AnalysisEngine`: the configuration, the memory scanner it reads through, a table
      scanner and the pattern database. */
  datatype AnalysisEngine = AnalysisEngine(config: AnalysisConfig, memoryScanner: Memory.MemoryScanner,
                                           vtableScanner: VTables.VTableScanner,
                                           patternDatabase: PatternDatabase)

  /** `AnalysisEngine::new`. */
  function NewEngine(s: Memory.MemoryScanner): (e: AnalysisEngine)
    ensures e.config == DefaultAnalysisConfig && e.memoryScanner == s
    ensures e.vtableScanner == VTables.NewVTableScanner() && e.patternDatabase == NewPatternDatabase()
  {
    AnalysisEngine(DefaultAnalysisConfig, s, VTables.NewVTableScanner(), NewPatternDatabase())
  }

  /** `AnalysisEngine::with_config`: the configuration is kept as given. */
  function EngineWithConfig(s: Memory.MemoryScanner, config: AnalysisConfig): (e: AnalysisEngine)
    ensures e.config == config && e.memoryScanner == s
    ensures e.vtableScanner == VTables.NewVTableScanner() && e.patternDatabase == NewPatternDatabase()
  {
    AnalysisEngine(config, s, VTables.NewVTableScanner(), NewPatternDatabase())
  }

  // ---------------------------------------------------------------------------
  // Byte heuristics

  /** `PatternDatabase::is_function_prologue`: the first four bytes are `55 48 89 E5`,
      `48 83 EC ??` or `48 89 5C 24`. */
  predicate IsFunctionPrologue(data: seq<byte>)
  {
    |data| >= 4 &&
    (data[..4] == [0x55, 0x48, 0x89, 0xE5] ||
     (data[0] == 0x48 && data[1] == 0x83 && data[2] == 0xEC) ||
     data[..4] == [0x48, 0x89, 0x5C, 0x24])
  }

  /** `detect_calling_convention`: `55 48 89 E5` is cdecl, `48 89 4C 24` fastcall, and
      everything else, a short input included, unknown. */
  function DetectCallingConvention(data: seq<byte>): (c: CallingConvention)
    ensures c == Cdecl <==> |data| >= 4 && data[..4] == [0x55, 0x48, 0x89, 0xE5]
    ensures c == Fastcall <==> |data| >= 4 && data[..4] == [0x48, 0x89, 0x4C, 0x24]
    ensures c != Cdecl && c != Fastcall ==> c == UnknownConvention
  {
    if |data| >= 4 then
      if data[..4] == [0x55, 0x48, 0x89, 0xE5] then Cdecl
      else if data[..4] == [0x48, 0x89, 0x4C, 0x24] then Fastcall
      else UnknownConvention
    else UnknownConvention
  }

  /** `test_calling_convention_detection`. */
  lemma CallingConventionExample()
    ensures DetectCallingConvention([0x55, 0x48, 0x89, 0xE5]) == Cdecl
    ensures DetectCallingConvention([0x48, 0x89, 0x4C, 0x24]) == Fastcall
  {
  }

  /** An epilogue window at `i`: `48 83 C4`, `5D C3 _` or `C3 _ _`. */
  predicate IsEpilogueAt(data: seq<byte>, i: nat)
  {
    i + 3 <= |data| &&
    ((data[i] == 0x48 && data[i + 1] == 0x83 && data[i + 2] == 0xC4) ||
     (data[i] == 0x5D && data[i + 1] == 0xC3) ||
     data[i] == 0xC3)
  }

  /** The first epilogue window at or after `i`. */
  function FirstEpilogueFrom(data: seq<byte>, i: nat): (r: Option<nat>)
    ensures r.Some? ==> i <= r.value && IsEpilogueAt(data, r.value)
    ensures r.Some? ==> forall k :: i <= k < r.value ==> !IsEpilogueAt(data, k)
    ensures r.None? ==> forall k :: i <= k ==> !IsEpilogueAt(data, k)
    decreases |data| - i
  {
    if i + 3 > |data| then None
    else if IsEpilogueAt(data, i) then Some(i)
    else FirstEpilogueFrom(data, i + 1)
  }

  /** `estimate_function_size`, as a value: one more than the index of the first
      epilogue window, or nothing when there is none (always so below three bytes). */
  function SizeEstimate(data: seq<byte>): (r: Option<nat>)
    ensures r.Some? ==> r.value >= 1 && IsEpilogueAt(data, r.value - 1)
    ensures r.Some? ==> forall k: nat :: k + 1 < r.value ==> !IsEpilogueAt(data, k)
    ensures r.None? <==> forall k :: !IsEpilogueAt(data, k)
    ensures |data| < 3 ==> r.None?
  {
    match FirstEpilogueFrom(data, 0)
    case None => None
    case Some(i) => Some(i + 1)
  }

  /** `estimate_function_size`: slides a three-byte window and stops at the first epilogue. */
  method EstimateFunctionSize(data: seq<byte>) returns (r: Option<nat>)
    ensures r == SizeEstimate(data)
  {
    var i := 0;
    while i + 3 <= |data|
      invariant FirstEpilogueFrom(data, i) == FirstEpilogueFrom(data, 0)
      decreases |data| - i
    {
      var window := data[i..i + 3];
      if (window[0] == 0x48 && window[1] == 0x83 && window[2] == 0xC4) ||
         (window[0] == 0x5D && window[1] == 0xC3) || window[0] == 0xC3 {
        return Some(i + 1);
      }
      i := i + 1;
    }
    return None;
  }

  /** The one parameter `analyze_function_parameters` can find. */
  const RcxParameter: Parameter := Parameter(0, UnknownType, Register("RCX"))

  /** `analyze_function_parameters`: the first argument in RCX when at least eight bytes
      start with the spill `48 89 4C 24`, and nothing otherwise. */
  function FunctionParameters(data: seq<byte>): (ps: seq<Parameter>)
    ensures ps == [] || ps == [RcxParameter]
    ensures ps != [] <==> |data| >= 8 && data[..4] == [0x48, 0x89, 0x4C, 0x24]
  {
    if |data| >= 8 && data[..4] == [0x48, 0x89, 0x4C, 0x24] then [RcxParameter] else []
  }

  /** A found parameter means the bytes also read as fastcall. */
  lemma ParametersImplyFastcall(data: seq<byte>)
    requires FunctionParameters(data) != []
    ensures DetectCallingConvention(data) == Fastcall
  {
  }

  /** `is_data_pointer`: eight bytes read as a little-endian address strictly between
      0x1000 and 0x7FFFFFFFFFFF. */
  predicate IsDataPointer(data: seq<byte>)
  {
    |data| >= 8 && 0x1000 < LittleEndian(data[..8]) < 0x7FFF_FFFF_FFFF
  }

  /** `is_string_data`: at least four bytes, and more than 70% of the first 32 (or of all,
      if fewer) printable; the ratio test is written `10 · count > 7 · n`. */
  predicate IsStringData(data: seq<byte>)
  {
    var n := if |data| < 32 then |data| else 32;
    |data| >= 4 && 10 * CountPrintable(data[..n]) > 7 * n
  }

  /** Counting the printable bytes of a run that is all printable, or all not. */
  lemma {:induction false} CountPrintableUniform(s: seq<byte>)
    ensures (forall k :: 0 <= k < |s| ==> IsPrintable(s[k])) ==> CountPrintable(s) == |s|
    ensures (forall k :: 0 <= k < |s| ==> !IsPrintable(s[k])) ==> CountPrintable(s) == 0
  {
    if s != [] {
      CountPrintableUniform(s[1..]);
      assert forall k :: 1 <= k < |s| ==> s[1..][k - 1] == s[k];
    }
  }

  /** Four or more bytes that are all printable are string data; bytes none of which
      is printable never are. */
  lemma StringDataExtremes(data: seq<byte>)
    ensures |data| >= 4 && (forall k :: 0 <= k < |data| ==> IsPrintable(data[k])) ==> IsStringData(data)
    ensures (forall k :: 0 <= k < |data| ==> !IsPrintable(data[k])) ==> !IsStringData(data)
  {
    var n := if |data| < 32 then |data| else 32;
    CountPrintableUniform(data[..n]);
    assert forall k :: 0 <= k < n ==> data[..n][k] == data[k];
  }

  // ---------------------------------------------------------------------------
  // Analysing one function (`analyze_function`)

  /** What `analyze_function` records for the 512 bytes read at `address`: the calling
      convention and parameters the bytes suggest, the size estimate, and a confidence of
      0.5, plus 0.2 with a size and 0.1 with a parameter. */
  function FunctionFrom(address: nat, data: seq<byte>): DiscoveredFunction
  {
    var size := SizeEstimate(data);
    var ps := FunctionParameters(data);
    DiscoveredFunction(address, size, None, DetectCallingConvention(data), ps, None,
                       5 + (if size.Some? then 2 else 0) + (if ps != [] then 1 else 0), [], [], [])
  }

  /** `analyze_function`, as a value: a failed read is a memory error. */
  function FunctionAt(s: Memory.MemoryScanner, address: nat): Result<DiscoveredFunction, AnalysisError>
  {
    match Memory.ReadMemory(s.process, address, 512)
    case Err(e) => Err(MemoryError(e))
    case Ok(data) => Ok(FunctionFrom(address, data))
  }

  /** `analyze_function`: reads 512 bytes and refines a first guess step by step. */
  method AnalyzeFunction(s: Memory.MemoryScanner, address: nat) returns (r: Result<DiscoveredFunction, AnalysisError>)
    ensures r == FunctionAt(s, address)
  {
    var read := Memory.ReadMemory(s.process, address, 512);
    if read.Err? {
      return Err(MemoryError(read.error));
    }
    var data := read.value;
    var found := DiscoveredFunction(address, None, None, DetectCallingConvention(data), [], None, 5, [], [], []);
    var size := EstimateFunctionSize(data);
    if size.Some? {
      found := found.(size := size, confidence := found.confidence + 2);
    }
    found := found.(parameters := FunctionParameters(data));
    if found.parameters != [] {
      found := found.(confidence := found.confidence + 1);
    }
    return Ok(found);
  }

  /** The analysis of one function: it fails exactly when the 512-byte read does; then
      its confidence lies between 0.5 and 0.8, it has a size exactly when the bytes hold
      an epilogue window, and a parameter only when the bytes also read as fastcall. */
  lemma FunctionAtSpec(s: Memory.MemoryScanner, address: nat)
    ensures FunctionAt(s, address).Err? <==> Memory.ReadMemory(s.process, address, 512).Err?
    ensures FunctionAt(s, address).Ok? ==>
              var f := FunctionAt(s, address).value;
              var data := Memory.ReadMemory(s.process, address, 512).value;
              f.address == address && 5 <= f.confidence <= 8 &&
              f.size == SizeEstimate(data) &&
              f.parameters == FunctionParameters(data) &&
              f.callingConvention == DetectCallingConvention(data) &&
              (f.parameters != [] <==> |data| >= 8 && data[..4] == [0x48, 0x89, 0x4C, 0x24]) &&
              (f.size.Some? <==> exists k :: IsEpilogueAt(data, k)) &&
              (f.parameters != [] ==> f.callingConvention == Fastcall) &&
              f.confidence == 5 + (if f.size.Some? then 2 else 0) + (if f.parameters != [] then 1 else 0)
  {
    if FunctionAt(s, address).Ok? {
      var data := Memory.ReadMemory(s.process, address, 512).value;
      if FunctionParameters(data) != [] {
        ParametersImplyFastcall(data);
      }
    }
  }

  // ---------------------------------------------------------------------------
  // Functions from a scan (`analyze_functions`)

  /** A function reached through a table: thiscall, and 0.1 more confident. */
  function AsVirtual(f: DiscoveredFunction): (g: DiscoveredFunction)
    ensures g.callingConvention == Thiscall && g.confidence == f.confidence + 1
    ensures g == f.(callingConvention := g.callingConvention, confidence := g.confidence)
  {
    f.(callingConvention := Thiscall, confidence := f.confidence + 1)
  }

  /** The function analysed at `address`, or nothing when its read fails. */
  function FoundAt(s: Memory.MemoryScanner, address: nat): seq<DiscoveredFunction>
  {
    match FunctionAt(s, address)
    case Ok(f) => [f]
    case Err(_) => []
  }

  /** The same, reached through a table slot. */
  function VirtualAt(s: Memory.MemoryScanner, address: nat): seq<DiscoveredFunction>
  {
    match FunctionAt(s, address)
    case Ok(f) => [AsVirtual(f)]
    case Err(_) => []
  }

  /** The functions at the pattern hits, in order, hits whose read fails skipped. */
  function PatternFound(s: Memory.MemoryScanner, rs: seq<Memory.ScanResult>): seq<DiscoveredFunction>
  {
    if rs == [] then [] else FoundAt(s, rs[0].address) + PatternFound(s, rs[1..])
  }

  /** The functions at the slots of one table, in slot order. */
  function SlotFound(s: Memory.MemoryScanner, fs: seq<VTables.VirtualFunction>): seq<DiscoveredFunction>
  {
    if fs == [] then [] else VirtualAt(s, fs[0].address) + SlotFound(s, fs[1..])
  }

  /** The functions at the slots of every table, table after table. */
  function TableFound(s: Memory.MemoryScanner, ts: seq<VTables.TableValue>): seq<DiscoveredFunction>
  {
    if ts == [] then [] else SlotFound(s, ts[0].functions) + TableFound(s, ts[1..])
  }

  /** What `analyze_functions` reports for a scan: the pattern hits' functions, then the
      tables' functions. */
  function FunctionsOf(s: Memory.MemoryScanner, c: Memory.ComprehensiveScanResult): seq<DiscoveredFunction>
  {
    PatternFound(s, c.patternMatches) + TableFound(s, c.vtables)
  }

  lemma PatternFoundStep(s: Memory.MemoryScanner, rs: seq<Memory.ScanResult>, i: nat)
    requires i < |rs|
    ensures PatternFound(s, rs[i..]) == FoundAt(s, rs[i].address) + PatternFound(s, rs[i + 1..])
  {
    assert rs[i..][1..] == rs[i + 1..];
  }

  lemma SlotFoundStep(s: Memory.MemoryScanner, fs: seq<VTables.VirtualFunction>, i: nat)
    requires i < |fs|
    ensures SlotFound(s, fs[i..]) == VirtualAt(s, fs[i].address) + SlotFound(s, fs[i + 1..])
  {
    assert fs[i..][1..] == fs[i + 1..];
  }

  lemma TableFoundStep(s: Memory.MemoryScanner, ts: seq<VTables.TableValue>, i: nat)
    requires i < |ts|
    ensures TableFound(s, ts[i..]) == SlotFound(s, ts[i].functions) + TableFound(s, ts[i + 1..])
  {
    assert ts[i..][1..] == ts[i + 1..];
  }

  /** A pattern hit's function is reported exactly when its read succeeds. */
  lemma {:induction false} PatternFoundSpec(s: Memory.MemoryScanner, rs: seq<Memory.ScanResult>)
    ensures |PatternFound(s, rs)| <= |rs|
    ensures forall f :: f in PatternFound(s, rs) <==> exists k :: 0 <= k < |rs| && FunctionAt(s, rs[k].address) == Ok(f)
  {
    if rs != [] {
      PatternFoundSpec(s, rs[1..]);
      assert forall k :: 1 <= k < |rs| ==> rs[1..][k - 1] == rs[k];
      forall f | exists k :: 0 <= k < |rs| && FunctionAt(s, rs[k].address) == Ok(f)
        ensures f in PatternFound(s, rs)
      {
        var k :| 0 <= k < |rs| && FunctionAt(s, rs[k].address) == Ok(f);
        if k > 0 {
          assert FunctionAt(s, rs[1..][k - 1].address) == Ok(f);
        }
      }
    }
  }

  /** A slot's function is reported, as a thiscall function of confidence 0.6 to 0.9,
      exactly when its read succeeds. */
  lemma {:induction false} SlotFoundSpec(s: Memory.MemoryScanner, fs: seq<VTables.VirtualFunction>)
    ensures |SlotFound(s, fs)| <= |fs|
    ensures forall g :: g in SlotFound(s, fs) <==>
              exists k :: 0 <= k < |fs| && FunctionAt(s, fs[k].address).Ok? && g == AsVirtual(FunctionAt(s, fs[k].address).value)
    ensures forall g :: g in SlotFound(s, fs) ==> g.callingConvention == Thiscall && 6 <= g.confidence <= 9
  {
    if fs != [] {
      SlotFoundSpec(s, fs[1..]);
      FunctionAtSpec(s, fs[0].address);
      assert forall k :: 1 <= k < |fs| ==> fs[1..][k - 1] == fs[k];
      forall g | exists k :: 0 <= k < |fs| && FunctionAt(s, fs[k].address).Ok? && g == AsVirtual(FunctionAt(s, fs[k].address).value)
        ensures g in SlotFound(s, fs)
      {
        var k :| 0 <= k < |fs| && FunctionAt(s, fs[k].address).Ok? && g == AsVirtual(FunctionAt(s, fs[k].address).value);
        if k > 0 {
          assert fs[1..][k - 1] == fs[k];
        }
      }
    }
  }

  /** The tables contribute at most one function per slot, each of them thiscall. */
  lemma {:induction false} TableFoundSpec(s: Memory.MemoryScanner, ts: seq<VTables.TableValue>)
    ensures |TableFound(s, ts)| <= Memory.FunctionTotal(ts)
    ensures forall g :: g in TableFound(s, ts) ==> g.callingConvention == Thiscall && 6 <= g.confidence <= 9
  {
    if ts != [] {
      TableFoundSpec(s, ts[1..]);
      SlotFoundSpec(s, ts[0].functions);
    }
  }

  /** Adds the functions of one table's slots to `fs`. */
  method AddSlots(s: Memory.MemoryScanner, slots: seq<VTables.VirtualFunction>, fs: seq<DiscoveredFunction>)
    returns (r: seq<DiscoveredFunction>)
    ensures r == fs + SlotFound(s, slots)
  {
    r := fs;
    assert slots[0..] == slots;
    for i := 0 to |slots|
      invariant r + SlotFound(s, slots[i..]) == fs + SlotFound(s, slots)
    {
      ghost var before := r;
      var found := AnalyzeFunction(s, slots[i].address);
      if found.Ok? {
        var g := found.value.(callingConvention := Thiscall);
        g := g.(confidence := g.confidence + 1);
        r := r + [g];
      }
      SlotFoundStep(s, slots, i);
      Regroup(before, SlotFound(s, slots[i..]), VirtualAt(s, slots[i].address), SlotFound(s, slots[i + 1..]),
              r, fs + SlotFound(s, slots));
    }
    assert slots[|slots|..] == [];
    assert r + [] == r;
  }

  /** `analyze_functions`: analyses every pattern hit, then every table slot; reads that
      fail are skipped. */
  method AnalyzeFunctions(s: Memory.MemoryScanner, c: Memory.ComprehensiveScanResult)
    returns (fs: seq<DiscoveredFunction>)
    ensures fs == FunctionsOf(s, c)
  {
    var rs, ts := c.patternMatches, c.vtables;
    fs := [];
    assert rs[0..] == rs && [] + PatternFound(s, rs) == PatternFound(s, rs);
    for i := 0 to |rs|
      invariant fs + PatternFound(s, rs[i..]) == PatternFound(s, rs)
    {
      ghost var before := fs;
      var found := AnalyzeFunction(s, rs[i].address);
      if found.Ok? {
        fs := fs + [found.value];
      }
      PatternFoundStep(s, rs, i);
      Regroup(before, PatternFound(s, rs[i..]), FoundAt(s, rs[i].address), PatternFound(s, rs[i + 1..]),
              fs, PatternFound(s, rs));
    }
    assert rs[|rs|..] == [] && fs + [] == fs;
    assert ts[0..] == ts;
    for i := 0 to |ts|
      invariant fs + TableFound(s, ts[i..]) == FunctionsOf(s, c)
    {
      ghost var before := fs;
      fs := AddSlots(s, ts[i].functions, fs);
      TableFoundStep(s, ts, i);
      Regroup(before, TableFound(s, ts[i..]), SlotFound(s, ts[i].functions), TableFound(s, ts[i + 1..]),
              fs, FunctionsOf(s, c));
    }
    assert ts[|ts|..] == [] && fs + [] == fs;
  }

  /** How many of `fs` reach the confidence threshold `t`. */
  function HighCount(fs: seq<DiscoveredFunction>, t: nat): (n: nat)
    ensures n <= |fs|
  {
    if fs == [] then 0 else (if fs[0].confidence >= t then 1 else 0) + HighCount(fs[1..], t)
  }

  /** Under the default threshold of 0.7, a function found at a pattern hit is highly
      confident exactly when an epilogue gave it a size, and one found through a table
      exactly when it has a size or a parameter. */
  lemma DefaultHighConfidence(address: nat, data: seq<byte>)
    ensures FunctionFrom(address, data).confidence >= DefaultAnalysisConfig.confidenceThreshold
            <==> SizeEstimate(data).Some?
    ensures AsVirtual(FunctionFrom(address, data)).confidence >= DefaultAnalysisConfig.confidenceThreshold
            <==> SizeEstimate(data).Some? || FunctionParameters(data) != []
  {
  }

  // ---------------------------------------------------------------------------
  // Structures (`analyze_structures`)

  /** The table pointer every derived structure starts with. */
  const VTableField: StructField := StructField("vtable", 0, Pointer(Void), PointerSize)

  /** The structure recorded for a table: named after the table, pointer-sized, holding
      just the table pointer at offset 0, with confidence 0.6. The class name the table
      estimates is always present, so the `Struct_` fallback name never applies. */
  function StructureOf(t: VTables.TableValue): (d: DiscoveredStruct)
    ensures |d.name| > 6 && d.name[..6] == "Class_"
    ensures AllHexDigits(d.name[6..]) && HexValue(d.name[6..]) == t.base
    ensures d.size == PointerSize && d.fields == [VTableField] && d.vtableOffset == Some(0)
    ensures d.baseClasses == [] && d.confidence == 6
  {
    DiscoveredStruct(VTables.ClassName(t.base), PointerSize, [VTableField], Some(0), [], 6)
  }

  /** The structures of the tables, one per table, in order. */
  function StructuresOf(ts: seq<VTables.TableValue>): (ds: seq<DiscoveredStruct>)
    ensures |ds| == |ts|
  {
    if ts == [] then [] else [StructureOf(ts[0])] + StructuresOf(ts[1..])
  }

  /** The `k`-th structure is the `k`-th table's. */
  lemma {:induction false} StructuresOfSpec(ts: seq<VTables.TableValue>)
    ensures forall k :: 0 <= k < |ts| ==> StructuresOf(ts)[k] == StructureOf(ts[k])
  {
    if ts != [] {
      StructuresOfSpec(ts[1..]);
      forall k | 1 <= k < |ts|
        ensures StructuresOf(ts)[k] == StructureOf(ts[k])
      {
        assert StructuresOf(ts)[k] == StructuresOf(ts[1..])[k - 1];
        assert ts[1..][k - 1] == ts[k];
      }
    }
  }

  /** Tables at different addresses give structures of different names. */
  lemma StructureNamesDistinct(t: VTables.TableValue, u: VTables.TableValue)
    requires t.base != u.base
    ensures StructureOf(t).name != StructureOf(u).name
  {
    if StructureOf(t).name == StructureOf(u).name {
      VTables.ClassNameInjective(t.base, u.base);
    }
  }

  lemma StructuresStep(ts: seq<VTables.TableValue>, i: nat)
    requires i < |ts|
    ensures StructuresOf(ts[i..]) == [StructureOf(ts[i])] + StructuresOf(ts[i + 1..])
  {
    assert ts[i..][1..] == ts[i + 1..];
  }

  /** `analyze_structures`: one structure per table. */
  method AnalyzeStructures(ts: seq<VTables.TableValue>) returns (ds: seq<DiscoveredStruct>)
    ensures ds == StructuresOf(ts)
  {
    ds := [];
    assert ts[0..] == ts && [] + StructuresOf(ts) == StructuresOf(ts);
    for i := 0 to |ts|
      invariant ds + StructuresOf(ts[i..]) == StructuresOf(ts)
    {
      ghost var before := ds;
      var structure := DiscoveredStruct(VTables.ClassName(ts[i].base), PointerSize, [], Some(0), [], 6);
      structure := structure.(fields := structure.fields + [VTableField]);
      assert structure == StructureOf(ts[i]);
      ds := ds + [structure];
      StructuresStep(ts, i);
      Regroup(before, StructuresOf(ts[i..]), [structure], StructuresOf(ts[i + 1..]), ds, StructuresOf(ts));
    }
    assert ts[|ts|..] == [] && ds + [] == ds;
  }

  // ---------------------------------------------------------------------------
  // Code patterns (`detect_code_patterns`)

  /** `{}` of a count: decimal digits without leading zeros. */
  function DecimalText(n: nat): (s: string)
    ensures 1 <= |s| && forall k :: 0 <= k < |s| ==> '0' <= s[k] <= '9'
  {
    if n < 10 then [('0' as int + n) as char] else DecimalText(n / 10) + [('0' as int + n % 10) as char]
  }

  /** The value of a string of decimal digits. */
  function DecimalValue(s: string): nat
    requires forall k :: 0 <= k < |s| ==> '0' <= s[k] <= '9'
  {
    if s == [] then 0 else 10 * DecimalValue(s[..|s| - 1]) + (s[|s| - 1] as int - '0' as int)
  }

  /** The count in a description reads back as the count. */
  lemma {:induction false} DecimalTextRoundTrip(n: nat)
    ensures DecimalValue(DecimalText(n)) == n
  {
    if n >= 10 {
      DecimalTextRoundTrip(n / 10);
      var s := DecimalText(n);
      assert s[..|s| - 1] == DecimalText(n / 10);
    }
  }

  /** The prologue pattern recorded for a hit. */
  function PrologueAt(r: Memory.ScanResult): CodePattern
  {
    CodePattern(FunctionPrologue, [r.address], "Standard function prologue", 8)
  }

  /** The hits whose bytes start with a prologue, as prologue patterns, in order. */
  function ProloguesOf(rs: seq<Memory.ScanResult>): seq<CodePattern>
  {
    if rs == [] then []
    else (if IsFunctionPrologue(rs[0].data) then [PrologueAt(rs[0])] else []) + ProloguesOf(rs[1..])
  }

  /** The virtual-call pattern recorded for a table: its slot addresses and its size. */
  function TablePattern(t: VTables.TableValue): CodePattern
  {
    CodePattern(VirtualCall, VTables.Addresses(t.functions),
                "Virtual function table with " + DecimalText(|t.functions|) + " functions", 9)
  }

  /** A table's pattern lists its slot addresses in order, and its description names
      the number of slots between its fixed prefix and suffix. */
  lemma TablePatternSpec(t: VTables.TableValue)
    ensures var p := TablePattern(t);
            p.patternType == VirtualCall && p.confidence == 9 && |p.addresses| == |t.functions| &&
            (forall k :: 0 <= k < |t.functions| ==> p.addresses[k] == t.functions[k].address)
    ensures var p := TablePattern(t);
            var prefix := "Virtual function table with ";
            var count := DecimalText(|t.functions|);
            p.description == prefix + count + " functions" &&
            p.description[..|prefix|] == prefix && DecimalValue(count) == |t.functions| &&
            p.description[|p.description| - 10..] == " functions"
  {
    DecimalTextRoundTrip(|t.functions|);
  }

  /** One virtual-call pattern per table, in order. */
  function TablePatterns(ts: seq<VTables.TableValue>): (ps: seq<CodePattern>)
    ensures |ps| == |ts|
  {
    if ts == [] then [] else [TablePattern(ts[0])] + TablePatterns(ts[1..])
  }

  /** The `k`-th virtual-call pattern is the `k`-th table's. */
  lemma {:induction false} TablePatternsSpec(ts: seq<VTables.TableValue>)
    ensures forall k :: 0 <= k < |ts| ==> TablePatterns(ts)[k] == TablePattern(ts[k])
  {
    if ts != [] {
      TablePatternsSpec(ts[1..]);
      forall k | 1 <= k < |ts|
        ensures TablePatterns(ts)[k] == TablePattern(ts[k])
      {
        assert TablePatterns(ts)[k] == TablePatterns(ts[1..])[k - 1];
        assert ts[1..][k - 1] == ts[k];
      }
    }
  }

  /** What `detect_code_patterns` reports: the prologues, then one pattern per table. */
  function CodePatternsOf(c: Memory.ComprehensiveScanResult): seq<CodePattern>
  {
    ProloguesOf(c.patternMatches) + TablePatterns(c.vtables)
  }

  lemma ProloguesStep(rs: seq<Memory.ScanResult>, i: nat)
    requires i < |rs|
    ensures ProloguesOf(rs[i..]) == (if IsFunctionPrologue(rs[i].data) then [PrologueAt(rs[i])] else []) + ProloguesOf(rs[i + 1..])
  {
    assert rs[i..][1..] == rs[i + 1..];
  }

  /** A hit yields a prologue pattern exactly when its bytes start with a prologue. */
  lemma {:induction false} ProloguesSpec(rs: seq<Memory.ScanResult>)
    ensures |ProloguesOf(rs)| <= |rs|
    ensures forall p :: p in ProloguesOf(rs) <==> exists k :: 0 <= k < |rs| && IsFunctionPrologue(rs[k].data) && p == PrologueAt(rs[k])
  {
    if rs != [] {
      ProloguesSpec(rs[1..]);
      assert forall k :: 1 <= k < |rs| ==> rs[1..][k - 1] == rs[k];
      forall p | exists k :: 0 <= k < |rs| && IsFunctionPrologue(rs[k].data) && p == PrologueAt(rs[k])
        ensures p in ProloguesOf(rs)
      {
        var k :| 0 <= k < |rs| && IsFunctionPrologue(rs[k].data) && p == PrologueAt(rs[k]);
        if k > 0 {
          assert rs[1..][k - 1] == rs[k];
        }
      }
    }
  }

  /** Every table yields a pattern, so there are at least as many patterns as tables. */
  lemma CodePatternCount(c: Memory.ComprehensiveScanResult)
    ensures |CodePatternsOf(c)| == |ProloguesOf(c.patternMatches)| + |c.vtables|
    ensures |c.vtables| <= |CodePatternsOf(c)| <= |c.patternMatches| + |c.vtables|
  {
    ProloguesSpec(c.patternMatches);
  }

  lemma TablePatternsStep(ts: seq<VTables.TableValue>, i: nat)
    requires i < |ts|
    ensures TablePatterns(ts[i..]) == [TablePattern(ts[i])] + TablePatterns(ts[i + 1..])
  {
    assert ts[i..][1..] == ts[i + 1..];
  }

  /** Adds one virtual-call pattern per table to `ps`. */
  method AddTablePatterns(ts: seq<VTables.TableValue>, ps: seq<CodePattern>) returns (r: seq<CodePattern>)
    ensures r == ps + TablePatterns(ts)
  {
    r := ps;
    assert ts[0..] == ts;
    for i := 0 to |ts|
      invariant r + TablePatterns(ts[i..]) == ps + TablePatterns(ts)
    {
      ghost var before := r;
      var t := ts[i];
      var count := DecimalText(|t.functions|);
      var p := CodePattern(VirtualCall, VTables.Addresses(t.functions),
                           "Virtual function table with " + count + " functions", 9);
      assert p == TablePattern(t);
      r := r + [p];
      TablePatternsStep(ts, i);
      Regroup(before, TablePatterns(ts[i..]), [p], TablePatterns(ts[i + 1..]), r, ps + TablePatterns(ts));
    }
    assert ts[|ts|..] == [] && r + [] == r;
  }

  /** `detect_code_patterns`. */
  method DetectCodePatterns(c: Memory.ComprehensiveScanResult) returns (ps: seq<CodePattern>)
    ensures ps == CodePatternsOf(c)
  {
    var rs, ts := c.patternMatches, c.vtables;
    ps := [];
    assert rs[0..] == rs && [] + ProloguesOf(rs) == ProloguesOf(rs);
    for i := 0 to |rs|
      invariant ps + ProloguesOf(rs[i..]) == ProloguesOf(rs)
    {
      ghost var before := ps;
      var here: seq<CodePattern> := [];
      if IsFunctionPrologue(rs[i].data) {
        here := [CodePattern(FunctionPrologue, [rs[i].address], "Standard function prologue", 8)];
      }
      ps := ps + here;
      ProloguesStep(rs, i);
      Regroup(before, ProloguesOf(rs[i..]), here, ProloguesOf(rs[i + 1..]), ps, ProloguesOf(rs));
    }
    assert rs[|rs|..] == [] && ps + [] == ps;
    ps := AddTablePatterns(ts, ps);
  }

  // ---------------------------------------------------------------------------
  // Strings (`extract_strings`, `find_string_references`)

  /** Where the printable run starting at `i` ends: the first non-printable byte at or
      after `i`, or the end of the data. */
  function RunEnd(data: seq<byte>, i: nat): (j: nat)
    requires i <= |data|
    ensures i <= j <= |data|
    ensures forall k :: i <= k < j ==> IsPrintable(data[k])
    ensures j == |data| || !IsPrintable(data[j])
    decreases |data| - i
  {
    if i == |data| || !IsPrintable(data[i]) then i else RunEnd(data, i + 1)
  }

  /** A run of printable bytes ending at a non-printable `j` ends there. */
  lemma RunEndIs(data: seq<byte>, i: nat, j: nat)
    requires i <= j < |data| && !IsPrintable(data[j])
    requires forall k :: i <= k < j ==> IsPrintable(data[k])
    ensures RunEnd(data, i) == j
  {
  }

  /** The string reported for the run `data[o..e]` of a region based at `base`. */
  function StringAt(data: seq<byte>, base: nat, o: nat, e: nat): StringReference
    requires o <= e <= |data|
  {
    StringReference(base + o, AsciiString(data[o..e]), Ascii, [])
  }

  /** The strings `extract_strings` reports from position `i` on, no run being open
      there: every run of at least four printable bytes followed by a non-printable
      one. A run that reaches the end of the data is never reported. */
  function StringsFrom(data: seq<byte>, base: nat, i: nat): seq<StringReference>
    requires i <= |data|
    decreases |data| - i
  {
    if i == |data| then []
    else
      var j := RunEnd(data, i);
      if j == |data| then []
      else (if j - i >= 4 then [StringAt(data, base, i, j)] else []) + StringsFrom(data, base, j + 1)
  }

  /** `data[o..e]` is a maximal run of at least four printable bytes, closed by a
      non-printable byte. */
  predicate ReportedRun(data: seq<byte>, o: nat, e: nat)
  {
    o + 4 <= e < |data| && !IsPrintable(data[e]) && (o == 0 || !IsPrintable(data[o - 1])) &&
    forall k :: o <= k < e ==> IsPrintable(data[k])
  }

  /** A string reported from `i` on comes from a maximal closed run of at least four
      bytes starting at or after `i`. */
  lemma {:induction false} StringsFromSound(data: seq<byte>, base: nat, i: nat, x: StringReference)
    requires i <= |data| && (i == 0 || !IsPrintable(data[i - 1]))
    requires x in StringsFrom(data, base, i)
    ensures exists o, e :: i <= o && ReportedRun(data, o, e) && x == StringAt(data, base, o, e)
    decreases |data| - i
  {
    var j := RunEnd(data, i);
    var head := if j - i >= 4 then [StringAt(data, base, i, j)] else [];
    assert StringsFrom(data, base, i) == head + StringsFrom(data, base, j + 1);
    if x in head {
      assert ReportedRun(data, i, j);
    } else {
      StringsFromSound(data, base, j + 1, x);
    }
  }

  /** Every maximal closed run of at least four bytes starting at or after `i` is
      reported. */
  lemma {:induction false} StringsFromComplete(data: seq<byte>, base: nat, i: nat, o: nat, e: nat)
    requires i <= o && ReportedRun(data, o, e)
    requires i == 0 || !IsPrintable(data[i - 1])
    ensures StringAt(data, base, o, e) in StringsFrom(data, base, i)
    decreases |data| - i
  {
    var j := RunEnd(data, i);
    if o == i {
      RunEndIs(data, i, e);
    } else {
      assert !IsPrintable(data[o - 1]);
      assert j < o;
      StringsFromComplete(data, base, j + 1, o, e);
    }
  }

  /** The strings reported are exactly the maximal closed runs of at least four bytes. */
  lemma StringsFromSpec(data: seq<byte>, base: nat)
    ensures forall x :: x in StringsFrom(data, base, 0) ==>
              exists o, e :: ReportedRun(data, o, e) && x == StringAt(data, base, o, e)
    ensures forall o, e :: ReportedRun(data, o, e) ==> StringAt(data, base, o, e) in StringsFrom(data, base, 0)
  {
    forall x | x in StringsFrom(data, base, 0)
      ensures exists o, e :: ReportedRun(data, o, e) && x == StringAt(data, base, o, e)
    {
      StringsFromSound(data, base, 0, x);
    }
    forall o, e | ReportedRun(data, o, e)
      ensures StringAt(data, base, o, e) in StringsFrom(data, base, 0)
    {
      StringsFromComplete(data, base, 0, o, e);
    }
  }

  /** Closing the run `data[o..i]` at the non-printable byte `i` reports it when it
      has at least four bytes, then carries on after `i`. */
  lemma StringsFromClose(data: seq<byte>, base: nat, o: nat, i: nat)
    requires o <= i < |data| && !IsPrintable(data[i])
    requires forall k :: o <= k < i ==> IsPrintable(data[k])
    ensures StringsFrom(data, base, o) == (if i - o >= 4 then [StringAt(data, base, o, i)] else []) + StringsFrom(data, base, i + 1)
  {
    RunEndIs(data, o, i);
  }

  /** A run still open at the end of the data reports nothing. */
  lemma StringsFromOpen(data: seq<byte>, base: nat, o: nat)
    requires o <= |data| && forall k :: o <= k < |data| ==> IsPrintable(data[k])
    ensures StringsFrom(data, base, o) == []
  {
  }

  lemma SliceExtend(data: seq<byte>, run: nat, i: nat, current: seq<byte>)
    requires run <= i < |data| && current == data[run..i]
    ensures current + [data[i]] == data[run..i + 1]
  {
  }

  /** What `extract_strings` knows after `i` bytes: the open run `current` is
      `data[run..i]`, all printable and started at `start`, and the strings reported so
      far followed by those reported from `run` on are all of them. */
  ghost predicate ScanState(data: seq<byte>, base: nat, i: nat, run: nat, start: nat, current: seq<byte>,
                            strings: seq<StringReference>)
  {
    run + |current| == i <= |data| && current == data[run..i] && (current != [] ==> start == run) &&
    (forall k :: 0 <= k < |current| ==> IsPrintable(current[k])) &&
    strings + StringsFrom(data, base, run) == StringsFrom(data, base, 0)
  }

  /** A printable byte extends the open run, which starts here if none was open. */
  method ExtendRun(data: seq<byte>, base: nat, i: nat, ghost run: nat, start: nat, current: seq<byte>,
                   strings: seq<StringReference>) returns (start': nat, current': seq<byte>)
    requires i < |data| && IsPrintable(data[i]) && ScanState(data, base, i, run, start, current, strings)
    ensures ScanState(data, base, i + 1, run, start', current', strings)
  {
    start' := if current == [] then i else start;
    SliceExtend(data, run, i, current);
    current' := current + [data[i]];
  }

  /** Any other byte closes the open run, reporting it from `start` when it has at least
      four bytes. */
  method CloseRun(data: seq<byte>, base: nat, i: nat, ghost run: nat, start: nat, current: seq<byte>,
                  strings: seq<StringReference>) returns (strings': seq<StringReference>)
    requires i < |data| && !IsPrintable(data[i]) && ScanState(data, base, i, run, start, current, strings)
    ensures ScanState(data, base, i + 1, i + 1, start, [], strings')
  {
    PrintableWord(data, run, current);
    StringsFromClose(data, base, run, i);
    var here: seq<StringReference> := [];
    if |current| >= 4 {
      here := [StringReference(base + start, AsciiString(current), Ascii, [])];
    }
    assert here == if i - run >= 4 then [StringAt(data, base, run, i)] else [];
    strings' := strings + here;
    Regroup(strings, StringsFrom(data, base, run), here, StringsFrom(data, base, i + 1), strings', StringsFrom(data, base, 0));
  }

  /** `extract_strings`: gathers the current run byte by byte and reports it, when at
      least four bytes long, at the first byte that is not printable. */
  method ExtractStrings(data: seq<byte>, base: nat) returns (strings: seq<StringReference>)
    ensures strings == StringsFrom(data, base, 0)
  {
    strings := [];
    var current: seq<byte> := [];
    var start := 0;
    ghost var run := 0;
    assert [] + StringsFrom(data, base, 0) == StringsFrom(data, base, 0);
    for i := 0 to |data|
      invariant ScanState(data, base, i, run, start, current, strings)
    {
      var b := data[i];
      if IsPrintable(b) {
        start, current := ExtendRun(data, base, i, run, start, current, strings);
      } else {
        strings := CloseRun(data, base, i, run, start, current, strings);
        run, current := i + 1, [];
      }
    }
    PrintableWord(data, run, current);
    StringsFromOpen(data, base, run);
    assert strings + [] == strings;
  }

  /** `test_string_extraction`: "Hello World" and "Some other text", each closed by a
      zero byte, are the two strings found, at 0x1000 and 0x100C. */
  lemma StringsExample()
    ensures var hello: seq<byte> := [0x48, 0x65, 0x6C, 0x6C, 0x6F, 0x20, 0x57, 0x6F, 0x72, 0x6C, 0x64];
            var some: seq<byte> := [0x53, 0x6F, 0x6D, 0x65, 0x20, 0x6F, 0x74, 0x68, 0x65, 0x72, 0x20, 0x74, 0x65, 0x78, 0x74];
            var data := hello + [0] + some + [0, 0, 1, 2];
            StringsFrom(data, 0x1000, 0) ==
              [StringReference(0x1000, "Hello World", Ascii, []), StringReference(0x100C, "Some other text", Ascii, [])]
  {
    var hello: seq<byte> := [0x48, 0x65, 0x6C, 0x6C, 0x6F, 0x20, 0x57, 0x6F, 0x72, 0x6C, 0x64];
    var some: seq<byte> := [0x53, 0x6F, 0x6D, 0x65, 0x20, 0x6F, 0x74, 0x68, 0x65, 0x72, 0x20, 0x74, 0x65, 0x78, 0x74];
    var data := hello + [0] + some + [0, 0, 1, 2];
    HelloRun(data, hello, some);
    SomeRun(data, hello, some);
    TailRuns(data, hello, some);
  }

  /** A word of printable bytes found in the data makes that stretch printable. */
  lemma PrintableWord(data: seq<byte>, o: nat, w: seq<byte>)
    requires o + |w| <= |data| && data[o..o + |w|] == w
    requires forall k :: 0 <= k < |w| ==> IsPrintable(w[k])
    ensures forall k :: o <= k < o + |w| ==> IsPrintable(data[k])
  {
    forall k | o <= k < o + |w|
      ensures IsPrintable(data[k])
    {
      assert data[k] == w[k - o];
    }
  }

  lemma HelloText(hello: seq<byte>)
    requires hello == [0x48, 0x65, 0x6C, 0x6C, 0x6F, 0x20, 0x57, 0x6F, 0x72, 0x6C, 0x64]
    ensures AsciiString(hello) == "Hello World"
  {
  }

  lemma SomeText(some: seq<byte>)
    requires some == [0x53, 0x6F, 0x6D, 0x65, 0x20, 0x6F, 0x74, 0x68, 0x65, 0x72, 0x20, 0x74, 0x65, 0x78, 0x74]
    ensures AsciiString(some) == "Some other text"
  {
  }

  lemma HelloRun(data: seq<byte>, hello: seq<byte>, some: seq<byte>)
    requires hello == [0x48, 0x65, 0x6C, 0x6C, 0x6F, 0x20, 0x57, 0x6F, 0x72, 0x6C, 0x64]
    requires |some| == 15 && data == hello + [0] + some + [0, 0, 1, 2]
    ensures StringsFrom(data, 0x1000, 0) == [StringReference(0x1000, "Hello World", Ascii, [])] + StringsFrom(data, 0x1000, 12)
  {
    assert data[0..11] == hello;
    PrintableWord(data, 0, hello);
    StringsFromClose(data, 0x1000, 0, 11);
    HelloText(hello);
  }

  lemma SomeRun(data: seq<byte>, hello: seq<byte>, some: seq<byte>)
    requires some == [0x53, 0x6F, 0x6D, 0x65, 0x20, 0x6F, 0x74, 0x68, 0x65, 0x72, 0x20, 0x74, 0x65, 0x78, 0x74]
    requires |hello| == 11 && data == hello + [0] + some + [0, 0, 1, 2]
    ensures StringsFrom(data, 0x1000, 12) == [StringReference(0x100C, "Some other text", Ascii, [])] + StringsFrom(data, 0x1000, 28)
  {
    assert data[12..27] == some;
    PrintableWord(data, 12, some);
    StringsFromClose(data, 0x1000, 12, 27);
    SomeText(some);
  }

  lemma TailRuns(data: seq<byte>, hello: seq<byte>, some: seq<byte>)
    requires |hello| == 11 && |some| == 15 && data == hello + [0] + some + [0, 0, 1, 2]
    ensures StringsFrom(data, 0x1000, 28) == []
  {
    assert |data| == 31 && data[28] == 0 && data[29] == 1 && data[30] == 2;
    assert StringsFrom(data, 0x1000, 31) == [];
    RunEndIs(data, 30, 30);
    assert StringsFrom(data, 0x1000, 30) == [];
    RunEndIs(data, 29, 29);
    assert StringsFrom(data, 0x1000, 29) == [];
    RunEndIs(data, 28, 28);
  }

  /** The strings of one region: a readable region whose full read succeeds yields the
      strings of its bytes; any other region none. */
  function RegionStrings(s: Memory.MemoryScanner, r: Memory.MemoryRegion): seq<StringReference>
  {
    if Memory.IsReadable(r) then
      match Memory.ReadMemory(s.process, r.baseAddress, r.size)
      case Ok(data) => StringsFrom(data, r.baseAddress, 0)
      case Err(_) => []
    else []
  }

  /** What `find_string_references` reports: each region's strings, in region order. */
  function StringsIn(s: Memory.MemoryScanner, regions: seq<Memory.MemoryRegion>): seq<StringReference>
  {
    if regions == [] then [] else RegionStrings(s, regions[0]) + StringsIn(s, regions[1..])
  }

  /** A string of a region is at least four characters long, lies wholly inside the
      region's bytes as read, is a maximal printable run of them, and is followed inside
      the region by a byte that is not printable. */
  lemma RegionStringsSpec(s: Memory.MemoryScanner, r: Memory.MemoryRegion)
    ensures forall x :: x in RegionStrings(s, r) ==>
              Memory.IsReadable(r) && |x.value| >= 4 && x.encoding == Ascii &&
              r.baseAddress <= x.address && x.address + |x.value| < r.baseAddress + r.size &&
              Memory.ReadMemory(s.process, r.baseAddress, r.size).Ok? &&
              var data := Memory.ReadMemory(s.process, r.baseAddress, r.size).value;
              var o := x.address - r.baseAddress;
              ReportedRun(data, o, o + |x.value|) && x.value == AsciiString(data[o..o + |x.value|])
  {
    if Memory.IsReadable(r) && Memory.ReadMemory(s.process, r.baseAddress, r.size).Ok? {
      var data := Memory.ReadMemory(s.process, r.baseAddress, r.size).value;
      forall x | x in RegionStrings(s, r)
        ensures |x.value| >= 4 && x.encoding == Ascii
        ensures r.baseAddress <= x.address && x.address + |x.value| < r.baseAddress + r.size
        ensures var o := x.address - r.baseAddress;
                ReportedRun(data, o, o + |x.value|) && x.value == AsciiString(data[o..o + |x.value|])
      {
        StringsFromSound(data, r.baseAddress, 0, x);
      }
    }
  }

  /** Every string found lies inside a readable region of the scan. */
  lemma {:induction false} StringsInSpec(s: Memory.MemoryScanner, regions: seq<Memory.MemoryRegion>)
    ensures forall x :: x in StringsIn(s, regions) ==>
              |x.value| >= 4 &&
              (exists k :: 0 <= k < |regions| && Memory.IsReadable(regions[k]) &&
                 regions[k].baseAddress <= x.address && x.address + |x.value| < regions[k].baseAddress + regions[k].size)
  {
    if regions != [] {
      StringsInSpec(s, regions[1..]);
      RegionStringsSpec(s, regions[0]);
      assert forall k :: 1 <= k < |regions| ==> regions[1..][k - 1] == regions[k];
    }
  }

  lemma StringsInStep(s: Memory.MemoryScanner, regions: seq<Memory.MemoryRegion>, i: nat)
    requires i < |regions|
    ensures StringsIn(s, regions[i..]) == RegionStrings(s, regions[i]) + StringsIn(s, regions[i + 1..])
  {
    assert regions[i..][1..] == regions[i + 1..];
  }

  /** The strings of one region, read through the scanner. */
  method ScanRegionStrings(s: Memory.MemoryScanner, region: Memory.MemoryRegion) returns (here: seq<StringReference>)
    ensures here == RegionStrings(s, region)
  {
    here := [];
    if Memory.IsReadable(region) {
      var read := Memory.ReadMemory(s.process, region.baseAddress, region.size);
      if read.Ok? {
        here := ExtractStrings(read.value, region.baseAddress);
      }
    }
  }

  /** `find_string_references`: the strings of every readable region; a region whose
      read fails is skipped. */
  method FindStringReferences(s: Memory.MemoryScanner, c: Memory.ComprehensiveScanResult)
    returns (refs: seq<StringReference>)
    ensures refs == StringsIn(s, c.memoryRegions)
  {
    var regions := c.memoryRegions;
    refs := [];
    assert regions[0..] == regions && [] + StringsIn(s, regions) == StringsIn(s, regions);
    for i := 0 to |regions|
      invariant refs + StringsIn(s, regions[i..]) == StringsIn(s, regions)
    {
      ghost var before := refs;
      var here := ScanRegionStrings(s, regions[i]);
      refs := refs + here;
      StringsInStep(s, regions, i);
      Regroup(before, StringsIn(s, regions[i..]), here, StringsIn(s, regions[i + 1..]), refs, StringsIn(s, regions));
    }
    assert regions[|regions|..] == [] && refs + [] == refs;
  }

  // ---------------------------------------------------------------------------
  // Single addresses (`analyze_single_address`, `analyze_addresses`)

  /** What 64 bytes at an address look like: a function, else a data pointer, else
      string data, else unknown. */
  function Classify(data: seq<byte>): (t: AddressType)
    ensures t == FunctionEntry <==> IsFunctionPrologue(data)
    ensures t == DataPointer <==> !IsFunctionPrologue(data) && IsDataPointer(data)
    ensures t == StringData <==> !IsFunctionPrologue(data) && !IsDataPointer(data) && IsStringData(data)
    ensures t == UnknownData <==> !IsFunctionPrologue(data) && !IsDataPointer(data) && !IsStringData(data)
  {
    if IsFunctionPrologue(data) then FunctionEntry
    else if IsDataPointer(data) then DataPointer
    else if IsStringData(data) then StringData
    else UnknownData
  }

  /** `analyze_single_address`: reads 64 bytes, classifies them with confidence 0.5, and
      keeps the first 32. */
  function AddressAt(s: Memory.MemoryScanner, address: nat): Result<AddressAnalysis, AnalysisError>
  {
    match Memory.ReadMemory(s.process, address, 64)
    case Err(e) => Err(MemoryError(e))
    case Ok(data) =>
      Ok(AddressAnalysis(address, Classify(data), 5, data[..if |data| < 32 then |data| else 32]))
  }

  /** An analysis fails exactly when the read does; a successful one keeps the first 32
      of the 64 bytes read. */
  lemma AddressAtSpec(s: Memory.MemoryScanner, address: nat)
    ensures AddressAt(s, address).Err? <==> Memory.ReadMemory(s.process, address, 64).Err?
    ensures AddressAt(s, address).Err? ==> AddressAt(s, address).error == MemoryError(Memory.ReadFailed(address, "ReadProcessMemory failed"))
    ensures AddressAt(s, address).Ok? ==>
              var a := AddressAt(s, address).value;
              var data := Memory.ReadMemory(s.process, address, 64).value;
              a.address == address && a.confidence == 5 && |a.data| == 32 && a.data == data[..32] &&
              a.analysisType == Classify(data)
  {
  }

  /** `analyze_addresses`, as a value: the analyses in order, or the first failure. */
  function AddressesAt(s: Memory.MemoryScanner, addresses: seq<nat>): Result<seq<AddressAnalysis>, AnalysisError>
  {
    if addresses == [] then Ok([])
    else
      match AddressAt(s, addresses[0])
      case Err(e) => Err(e)
      case Ok(a) =>
        match AddressesAt(s, addresses[1..])
        case Err(e) => Err(e)
        case Ok(more) => Ok([a] + more)
  }

  /** The list fails exactly when one of its reads does, with the error of the first
      address whose read fails; otherwise it holds one analysis per address, in order. */
  lemma {:induction false} AddressesAtSpec(s: Memory.MemoryScanner, addresses: seq<nat>)
    ensures AddressesAt(s, addresses).Err? <==>
              exists k :: 0 <= k < |addresses| && Memory.ReadMemory(s.process, addresses[k], 64).Err?
    ensures AddressesAt(s, addresses).Err? ==>
              exists k :: 0 <= k < |addresses| && AddressAt(s, addresses[k]).Err? &&
                AddressesAt(s, addresses).error == AddressAt(s, addresses[k]).error &&
                forall j :: 0 <= j < k ==> AddressAt(s, addresses[j]).Ok?
    ensures AddressesAt(s, addresses).Ok? ==>
              var r := AddressesAt(s, addresses).value;
              |r| == |addresses| && forall k :: 0 <= k < |r| ==> AddressAt(s, addresses[k]) == Ok(r[k])
  {
    if addresses != [] {
      AddressesAtSpec(s, addresses[1..]);
      AddressAtSpec(s, addresses[0]);
      assert forall k :: 1 <= k < |addresses| ==> addresses[1..][k - 1] == addresses[k];
    }
  }

  /** Prefixing `as` to a successful result. */
  function PrependAnalyses(xs: seq<AddressAnalysis>, r: Result<seq<AddressAnalysis>, AnalysisError>): Result<seq<AddressAnalysis>, AnalysisError>
  {
    match r
    case Err(e) => Err(e)
    case Ok(more) => Ok(xs + more)
  }

  lemma AddressesAtStep(s: Memory.MemoryScanner, addresses: seq<nat>, i: nat, xs: seq<AddressAnalysis>)
    requires i < |addresses| && AddressAt(s, addresses[i]).Ok?
    ensures PrependAnalyses(xs, AddressesAt(s, addresses[i..]))
         == PrependAnalyses(xs + [AddressAt(s, addresses[i]).value], AddressesAt(s, addresses[i + 1..]))
  {
    assert addresses[i..][0] == addresses[i] && addresses[i..][1..] == addresses[i + 1..];
    var r := AddressesAt(s, addresses[i + 1..]);
    if r.Ok? {
      assert xs + ([AddressAt(s, addresses[i]).value] + r.value) == (xs + [AddressAt(s, addresses[i]).value]) + r.value;
    }
  }

  /** `analyze_single_address`. */
  method AnalyzeSingleAddress(s: Memory.MemoryScanner, address: nat) returns (r: Result<AddressAnalysis, AnalysisError>)
    ensures r == AddressAt(s, address)
  {
    var read := Memory.ReadMemory(s.process, address, 64);
    if read.Err? {
      return Err(MemoryError(read.error));
    }
    var data := read.value;
    var analysisType := UnknownData;
    if IsFunctionPrologue(data) {
      analysisType := FunctionEntry;
    } else if IsDataPointer(data) {
      analysisType := DataPointer;
    } else if IsStringData(data) {
      analysisType := StringData;
    }
    var n := if |data| < 32 then |data| else 32;
    return Ok(AddressAnalysis(address, analysisType, 5, data[..n]));
  }

  /** `analyze_addresses`: analyses each address in turn; the first failure is returned. */
  method AnalyzeAddresses(s: Memory.MemoryScanner, addresses: seq<nat>) returns (r: Result<seq<AddressAnalysis>, AnalysisError>)
    ensures r == AddressesAt(s, addresses)
  {
    var results: seq<AddressAnalysis> := [];
    assert addresses[0..] == addresses;
    assert PrependAnalyses([], AddressesAt(s, addresses)) == AddressesAt(s, addresses) by {
      if AddressesAt(s, addresses).Ok? {
        assert [] + AddressesAt(s, addresses).value == AddressesAt(s, addresses).value;
      }
    }
    for i := 0 to |addresses|
      invariant AddressesAt(s, addresses) == PrependAnalyses(results, AddressesAt(s, addresses[i..]))
    {
      var analysis := AnalyzeSingleAddress(s, addresses[i]);
      if analysis.Err? {
        assert addresses[i..][0] == addresses[i];
        return Err(analysis.error);
      }
      AddressesAtStep(s, addresses, i, results);
      results := results + [analysis.value];
    }
    assert addresses[|addresses|..] == [];
    assert results + [] == results;
    return Ok(results);
  }

  // ---------------------------------------------------------------------------
  // The whole analysis (`analyze`)

  /** The result of `analyze` on a successful scan `c`; `elapsed` is the time it took. */
  function ResultOf(e: AnalysisEngine, c: Memory.ComprehensiveScanResult, elapsed: nat): AnalysisResult
  {
    var s := e.memoryScanner;
    var functions := FunctionsOf(s, c);
    var structures := StructuresOf(c.vtables);
    var strings := StringsIn(s, c.memoryRegions);
    var patterns := CodePatternsOf(c);
    AnalysisResult(functions, structures, VTableAnalysis.Hierarchy(c.vtables), strings, [], [], patterns,
                   AnalysisStatistics(|functions|, HighCount(functions, e.config.confidenceThreshold),
                                      |structures|, |c.vtables|, |strings|, |patterns|, elapsed))
  }

  /** `analyze`, as a value: a scan for the database's patterns (kinds in the map's
      `order`), then everything derived from it; a failed scan is a scan error. */
  function AnalyzeSpec(e: AnalysisEngine, order: seq<PatternType>, elapsed: nat): Result<AnalysisResult, AnalysisError>
    requires IsKeyOrder(e.patternDatabase, order)
  {
    match Memory.ComprehensiveSpec(e.memoryScanner, CommonPatterns(e.patternDatabase, order))
    case Err(err) => Err(ScanError(err))
    case Ok(c) => Ok(ResultOf(e, c, elapsed))
  }

  /** `analyze`: the scan, the functions, structures, classes, strings and code patterns,
      and the statistics over them. The elapsed time is given, not measured. */
  method Analyze(e: AnalysisEngine, order: seq<PatternType>, elapsed: nat) returns (r: Result<AnalysisResult, AnalysisError>)
    requires IsKeyOrder(e.patternDatabase, order)
    ensures r == AnalyzeSpec(e, order, elapsed)
  {
    var s := e.memoryScanner;
    var patterns := CommonPatterns(e.patternDatabase, order);
    var scan := Memory.ComprehensiveScan(s, patterns);
    if scan.Err? {
      return Err(ScanError(scan.error));
    }
    var c := scan.value;
    var functions := AnalyzeFunctions(s, c);
    var structures := AnalyzeStructures(c.vtables);
    var classes := VTableAnalysis.Hierarchy(c.vtables);
    var strings := FindStringReferences(s, c);
    var codePatterns := DetectCodePatterns(c);
    var statistics := AnalysisStatistics(|functions|, HighCount(functions, e.config.confidenceThreshold),
                                         |structures|, |c.vtables|, |strings|, |codePatterns|, elapsed);
    return Ok(AnalysisResult(functions, structures, classes, strings, [], [], codePatterns, statistics));
  }

  /** The statistics of an analysis agree with what it found: one structure and at
      least one code pattern per table, one class per table address, no more highly
      confident functions than functions, and at most one function per hit and slot. */
  lemma AnalyzeSpecStatistics(e: AnalysisEngine, order: seq<PatternType>, elapsed: nat)
    requires IsKeyOrder(e.patternDatabase, order)
    ensures AnalyzeSpec(e, order, elapsed).Err? <==>
              Memory.ComprehensiveSpec(e.memoryScanner, CommonPatterns(e.patternDatabase, order)).Err?
    ensures AnalyzeSpec(e, order, elapsed).Ok? ==>
              var a := AnalyzeSpec(e, order, elapsed).value;
              var c := Memory.ComprehensiveSpec(e.memoryScanner, CommonPatterns(e.patternDatabase, order)).value;
              var st := a.statistics;
              st.totalFunctions == |a.functions| && st.highConfidenceFunctions <= st.totalFunctions &&
              st.totalFunctions <= |c.patternMatches| + Memory.FunctionTotal(c.vtables) &&
              st.totalStructures == st.vtablesAnalyzed == |c.vtables| &&
              st.vtablesAnalyzed <= st.codePatterns == |a.codePatterns| &&
              st.stringReferences == |a.stringReferences| && st.analysisTimeMs == elapsed &&
              a.importTable == [] && a.exportTable == [] &&
              (forall t :: t in c.vtables ==> t.base in a.classes)
  {
    var texts := CommonPatterns(e.patternDatabase, order);
    var r := Memory.ComprehensiveSpec(e.memoryScanner, texts);
    if r.Ok? {
      var c := r.value;
      PatternFoundSpec(e.memoryScanner, c.patternMatches);
      TableFoundSpec(e.memoryScanner, c.vtables);
      CodePatternCount(c);
      VTableAnalysis.KeyedSpec(c.vtables, VTableAnalysis.ClassOf(VTables.Inheritance(c.vtables)), |c.vtables|);
    }
  }
}
