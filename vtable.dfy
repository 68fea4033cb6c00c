/** Virtual-function-table discovery: the byte heuristics that recognise code and
    type-info pointers, the table object, the aligned scan that proposes candidate
    tables, and the prefix test that relates a base table to a derived one. */
module VTables {
  import opened Common
  import opened Patterns
  import Naive
  import Matchers

  /** One slot of a table: the function's address and the slot number. */
  datatype VirtualFunction = VirtualFunction(address: nat, index: nat)

  /** What a table holds, independent of the object holding it. */
  datatype TableValue = TableValue(base: nat, functions: seq<VirtualFunction>, typeInfo: Option<nat>)

  function Addresses(fs: seq<VirtualFunction>): (r: seq<nat>)
    ensures |r| == |fs|
    ensures forall k :: 0 <= k < |fs| ==> r[k] == fs[k].address
  {
    if fs == [] then [] else [fs[0].address] + Addresses(fs[1..])
  }

  predicate HasAddress(fs: seq<VirtualFunction>, a: nat)
  {
    fs != [] && (fs[0].address == a || HasAddress(fs[1..], a))
  }

  /** The placeholder class name the analysis gives a table: `Class_` and the address
      in upper-case hex. Reading the digits back gives the address. */
  function ClassName(address: nat): (s: string)
    ensures |s| > 6 && s[..6] == "Class_"
    ensures AllHexDigits(s[6..]) && HexValue(s[6..]) == address
  {
    var s := "Class_" + HexUpper(address);
    assert s[6..] == HexUpper(address);
    HexUpperRoundTrip(address);
    s
  }

  /** Different tables get different names. */
  lemma ClassNameInjective(a: nat, b: nat)
    requires ClassName(a) == ClassName(b)
    ensures a == b
  {
  }

  /** A discovered table. `size` counts the slots and one more for the type-info
      pointer, once the first function has been added. */
  class VTable {
    var baseAddress: nat
    var functions: seq<VirtualFunction>
    var typeInfoPtr: Option<nat>
    var size: nat

    ghost predicate Valid()
      reads this
    {
      size == if functions == [] then 0 else PointerSize * |functions| + PointerSize
    }

    function Value(): TableValue
      reads this
    {
      TableValue(baseAddress, functions, typeInfoPtr)
    }

    constructor (base: nat)
      ensures baseAddress == base && functions == [] && typeInfoPtr == None && size == 0
      ensures Valid()
    {
      baseAddress := base;
      functions := [];
      typeInfoPtr := None;
      size := 0;
    }

    /** Appends a slot; the size is recomputed whether or not type info was found. */
    method AddFunction(address: nat, index: nat)
      modifies this
      ensures functions == old(functions) + [VirtualFunction(address, index)]
      ensures size == PointerSize * |functions| + PointerSize
      ensures baseAddress == old(baseAddress) && typeInfoPtr == old(typeInfoPtr)
      ensures Valid()
    {
      functions := functions + [VirtualFunction(address, index)];
      size := |functions| * PointerSize + PointerSize;
    }

    /** The number of slots: exactly the indices `GetFunction` answers for. */
    function FunctionCount(): (n: nat)
      reads this
      ensures forall i: nat :: GetFunction(i).Some? <==> i < n
    {
      |functions|
    }

    function GetFunction(i: nat): (r: Option<VirtualFunction>)
      reads this
      ensures r.Some? <==> i < |functions|
      ensures r.Some? ==> r.value == functions[i]
    {
      if i < |functions| then Some(functions[i]) else None
    }

    function ContainsFunction(address: nat): (b: bool)
      reads this
      ensures b <==> exists k :: 0 <= k < |functions| && functions[k].address == address
    {
      HasAddressSpec(functions, address);
      HasAddress(functions, address)
    }

    function EstimatedClassName(): (r: Option<string>)
      reads this
      ensures r == Some(ClassName(baseAddress))
    {
      Some(ClassName(baseAddress))
    }
  }

  lemma {:induction false} HasAddressSpec(fs: seq<VirtualFunction>, a: nat)
    ensures HasAddress(fs, a) <==> exists k :: 0 <= k < |fs| && fs[k].address == a
  {
    if fs != [] {
      HasAddressSpec(fs[1..], a);
      if HasAddress(fs[1..], a) {
        var k :| 0 <= k < |fs[1..]| && fs[1..][k].address == a;
        assert fs[k + 1].address == a;
      }
      if exists k :: 0 <= k < |fs| && fs[k].address == a {
        var k :| 0 <= k < |fs| && fs[k].address == a;
        if k > 0 {
          assert fs[1..][k - 1].address == a;
        }
      }
    }
  }

  /** `test_vtable_creation`: two slots added, one address present, another absent. */
  method CreationExample() returns (v: VTable)
    ensures v.FunctionCount() == 2 && v.size == 24
    ensures v.ContainsFunction(0x2000) && !v.ContainsFunction(0x3000)
  {
    v := new VTable(0x1000);
    v.AddFunction(0x2000, 0);
    v.AddFunction(0x2100, 1);
    assert v.functions[0].address == 0x2000;
    assert v.functions == [VirtualFunction(0x2000, 0), VirtualFunction(0x2100, 1)];
  }

  /** The values of a list of tables, in order. */
  function Values(vts: seq<VTable>): (r: seq<TableValue>)
    reads vts
    ensures |r| == |vts|
    ensures forall k :: 0 <= k < |vts| ==> r[k] == vts[k].Value()
  {
    if vts == [] then [] else Values(vts[..|vts| - 1]) + [vts[|vts| - 1].Value()]
  }

  // ---------------------------------------------------------------------------
  // Code heuristics

  /** One of the seven four-byte x86-64 prologue shapes at `offset`. */
  function HasFunctionPrologue(data: seq<byte>, offset: nat): (r: bool)
    ensures r ==> offset + 4 <= |data|
    ensures r ==> data[offset] == 0x55 || data[offset] == 0x48 || data[offset] == 0x53 || data[offset] == 0xCC
  {
    if offset + 4 > |data| then false
    else
      var b := data[offset..offset + 4];
      (b[0] == 0x55 && b[1] == 0x48 && b[2] == 0x89 && b[3] == 0xE5) ||   // push rbp; mov rbp, rsp
      (b[0] == 0x55 && b[1] == 0x48 && b[2] == 0x8B && b[3] == 0xEC) ||   // the same, other encoding
      (b[0] == 0x48 && b[1] == 0x83 && b[2] == 0xEC) ||                   // sub rsp, imm8
      (b[0] == 0x48 && b[1] == 0x81 && b[2] == 0xEC) ||                   // sub rsp, imm32
      b[0] == 0x53 ||                                                     // push rbx
      (b[0] == 0x48 && b[1] == 0x89 && b[2] == 0x4C && b[3] == 0x24) ||   // mov [rsp+8], rcx
      b[0] == 0xCC                                                        // int 3
  }

  /** The prologue test looks at the four bytes at `offset` and nothing else. */
  lemma PrologueIsLocal(data: seq<byte>, offset: nat)
    requires offset + 4 <= |data|
    ensures HasFunctionPrologue(data, offset) == HasFunctionPrologue(data[offset..offset + 4], 0)
  {
    assert data[offset..offset + 4][0..4] == data[offset..offset + 4];
  }

  /** `test_code_heuristics`: a prologue at 0, none at 4 (only nops follow). */
  lemma PrologueExample()
    ensures var data: seq<byte> := [0x55, 0x48, 0x89, 0xE5, 0x90, 0x90, 0x90, 0x90];
            HasFunctionPrologue(data, 0) && !HasFunctionPrologue(data, 4)
  {
  }

  /** `is_valid_function_ptr`: a non-null address inside the buffer whose bytes start
      like a function. */
  function IsValidFunctionPtr(address: nat, data: seq<byte>, base: nat): (r: bool)
    ensures r <==> address != 0 && base <= address < base + |data| && HasFunctionPrologue(data, address - base)
    ensures r ==> address + 4 <= base + |data|
  {
    if address == 0 then false
    else if address < base || address > base + |data| then false
    else
      var offset := address - base;
      if offset >= |data| then false
      else HasFunctionPrologue(data, offset)
  }

  /** `read_pointer`: the 8-byte little-endian value at `offset`, or 0 past the end. */
  function ReadPointer(data: seq<byte>, offset: nat): (v: nat)
    ensures offset + PointerSize > |data| ==> v == 0
    ensures offset + PointerSize <= |data| ==> v == LittleEndian(data[offset..offset + PointerSize])
    ensures v < Pow256(PointerSize)
  {
    if offset + PointerSize > |data| then 0
    else
      LittleEndianBound(data[offset..offset + PointerSize]);
      LittleEndian(data[offset..offset + PointerSize])
  }

  /** A slot inside the buffer reads as null exactly when its eight bytes are zero. */
  lemma ReadPointerNull(data: seq<byte>, offset: nat)
    requires offset + PointerSize <= |data|
    ensures ReadPointer(data, offset) == 0 <==> forall k :: offset <= k < offset + PointerSize ==> data[k] == 0
  {
    var s := data[offset..offset + PointerSize];
    LittleEndianZero(s);
    assert forall k :: offset <= k < offset + PointerSize ==> data[k] == s[k - offset];
  }

  /** `is_rtti_type_info`: the candidate lies in the buffer with 16 bytes after it,
      and the pointer stored there is non-null and points into the buffer (its end
      included). */
  function IsRttiTypeInfo(address: nat, data: seq<byte>, base: nat): (r: bool)
    ensures r <==> base <= address && address - base + 16 <= |data| &&
                   var v := ReadPointer(data, address - base); v != 0 && base <= v <= base + |data|
  {
    if address < base || address > base + |data| then false
    else
      var offset := address - base;
      if offset + 16 > |data| then false
      else
        var v := LittleEndian(data[offset..offset + 8]);
        v != 0 && v >= base && v <= base + |data|
  }

  // ---------------------------------------------------------------------------
  // Scanner configuration

  /** `VTableScanConfig`; an excluded range is inclusive at both ends. */
  datatype ScanConfig = ScanConfig(minFunctions: nat, maxFunctions: nat, includeRtti: bool,
                                   alignment: nat, excludedRanges: seq<(nat, nat)>)

  /** At least two slots, at most 256, type info on, pointer alignment, nothing excluded. */
  const DefaultConfig: ScanConfig := ScanConfig(2, 256, true, PointerSize, [])

  datatype VTableScanner = VTableScanner(config: ScanConfig, patternScanner: Matchers.PatternScanner)

  /** `VTableScanner::new` and `Default`. */
  function NewVTableScanner(): (s: VTableScanner)
    ensures s.config == DefaultConfig && s.patternScanner == Matchers.NewScanner()
  {
    VTableScanner(DefaultConfig, Matchers.NewScanner())
  }

  /** `VTableScanner::with_config`: the configuration is kept as given. */
  function WithConfig(config: ScanConfig): (s: VTableScanner)
    ensures s.config == config && s.patternScanner == Matchers.NewScanner()
  {
    VTableScanner(config, Matchers.NewScanner())
  }

  /** `test_vtable_scanner_config`. */
  lemma WithConfigExample()
    ensures var s := WithConfig(DefaultConfig.(minFunctions := 3, maxFunctions := 10));
            s.config.minFunctions == 3 && s.config.maxFunctions == 10 && s.config.alignment == 8
  {
  }

  /** `is_address_excluded`. */
  function IsAddressExcluded(ranges: seq<(nat, nat)>, address: nat): (r: bool)
    ensures r <==> exists k :: 0 <= k < |ranges| && ranges[k].0 <= address <= ranges[k].1
  {
    if ranges == [] then false
    else if ranges[0].0 <= address <= ranges[0].1 then true
    else
      var r := IsAddressExcluded(ranges[1..], address);
      assert forall k :: 1 <= k < |ranges| ==> ranges[k] == ranges[1..][k - 1];
      r
  }

  // ---------------------------------------------------------------------------
  // Candidate tables (`analyze_potential_vtable`)

  /** The type-info pointer taken from the first slot, when the configuration asks
      for one and the slot holds something that looks like type info. */
  function RttiSlot(config: ScanConfig, data: seq<byte>, base: nat, offset: nat): Option<nat>
  {
    if config.includeRtti && offset + PointerSize <= |data| && IsRttiTypeInfo(ReadPointer(data, offset), data, base)
    then Some(ReadPointer(data, offset))
    else None
  }

  /** The run of valid function pointers from `offset`, numbered from `index`, stopping
      at the first invalid slot, the end of the buffer or `maxFunctions` slots. */
  function FunctionsFrom(config: ScanConfig, data: seq<byte>, base: nat, offset: nat, index: nat): seq<VirtualFunction>
    decreases config.maxFunctions - index
  {
    if index < config.maxFunctions && offset + PointerSize <= |data| && IsValidFunctionPtr(ReadPointer(data, offset), data, base)
    then [VirtualFunction(ReadPointer(data, offset), index)] + FunctionsFrom(config, data, base, offset + PointerSize, index + 1)
    else []
  }

  /** The table proposed at `offset`, if its run is long enough. */
  function Candidate(config: ScanConfig, data: seq<byte>, base: nat, offset: nat): Option<TableValue>
  {
    var rtti := RttiSlot(config, data, base, offset);
    var start := if rtti.Some? then offset + PointerSize else offset;
    var fs := FunctionsFrom(config, data, base, start, 0);
    if |fs| >= config.minFunctions then Some(TableValue(base + offset, fs, rtti)) else None
  }

  /** The run from a slot: slot `k` holds the `k`-th function, numbered from `index`,
      every one a valid function pointer, and there are at most `maxFunctions - index`. */
  lemma {:induction false} FunctionsFromSpec(config: ScanConfig, data: seq<byte>, base: nat, offset: nat, index: nat)
    ensures var fs := FunctionsFrom(config, data, base, offset, index);
            index + |fs| <= config.maxFunctions || fs == []
    ensures var fs := FunctionsFrom(config, data, base, offset, index);
            forall k :: 0 <= k < |fs| ==>
              fs[k].index == index + k && offset + PointerSize * k + PointerSize <= |data| &&
              fs[k].address == ReadPointer(data, offset + PointerSize * k) &&
              IsValidFunctionPtr(fs[k].address, data, base)
    decreases config.maxFunctions - index
  {
    var fs := FunctionsFrom(config, data, base, offset, index);
    if fs != [] {
      FunctionsFromSpec(config, data, base, offset + PointerSize, index + 1);
    }
    forall k | 0 <= k < |fs|
      ensures fs[k].index == index + k && offset + PointerSize * k + PointerSize <= |data|
      ensures fs[k].address == ReadPointer(data, offset + PointerSize * k)
      ensures IsValidFunctionPtr(fs[k].address, data, base)
    {
      FunctionsFromSlot(config, data, base, offset, index, k, offset + PointerSize * k);
    }
  }

  /** Slot `k` of the run from `offset` is the function read at `at`, `k` slots on. */
  lemma {:induction false} FunctionsFromSlot(config: ScanConfig, data: seq<byte>, base: nat, offset: nat, index: nat, k: nat, at: nat)
    requires k < |FunctionsFrom(config, data, base, offset, index)| && at == offset + PointerSize * k
    ensures var f := FunctionsFrom(config, data, base, offset, index)[k];
            f.index == index + k && at + PointerSize <= |data| &&
            f.address == ReadPointer(data, at) && IsValidFunctionPtr(f.address, data, base)
    decreases k
  {
    if k > 0 {
      FunctionsFromSlot(config, data, base, offset + PointerSize, index + 1, k - 1, at);
      assert FunctionsFrom(config, data, base, offset, index)[k]
          == FunctionsFrom(config, data, base, offset + PointerSize, index + 1)[k - 1];
    }
  }

  /** What a proposed table is: based at `base + offset`, between `minFunctions` and
      `maxFunctions` slots numbered from 0, each a valid function pointer read from
      consecutive slots after the optional type-info slot. */
  lemma CandidateSpec(config: ScanConfig, data: seq<byte>, base: nat, offset: nat, t: TableValue)
    requires Candidate(config, data, base, offset) == Some(t)
    ensures var start := if t.typeInfo.Some? then offset + PointerSize else offset;
            t.base == base + offset &&
            config.minFunctions <= |t.functions| <= config.maxFunctions &&
            (t.typeInfo.Some? ==> config.includeRtti && IsRttiTypeInfo(t.typeInfo.value, data, base)) &&
            forall k :: 0 <= k < |t.functions| ==>
              t.functions[k].index == k &&
              t.functions[k].address == ReadPointer(data, start + PointerSize * k) &&
              IsValidFunctionPtr(t.functions[k].address, data, base)
  {
    var rtti := RttiSlot(config, data, base, offset);
    var start := if rtti.Some? then offset + PointerSize else offset;
    assert t == TableValue(base + offset, FunctionsFrom(config, data, base, start, 0), rtti);
    FunctionsFromSpec(config, data, base, start, 0);
  }

  lemma FunctionsFromStep(config: ScanConfig, data: seq<byte>, base: nat, offset: nat, index: nat,
                           ptr: nat, next: nat, index': nat)
    requires index < config.maxFunctions && offset + PointerSize <= |data|
    requires ptr == ReadPointer(data, offset) && IsValidFunctionPtr(ptr, data, base)
    requires next == offset + PointerSize && index' == index + 1
    ensures FunctionsFrom(config, data, base, offset, index)
         == [VirtualFunction(ptr, index)] + FunctionsFrom(config, data, base, next, index')
  {
  }

  lemma FunctionsFromStop(config: ScanConfig, data: seq<byte>, base: nat, offset: nat, index: nat)
    requires !(index < config.maxFunctions && offset + PointerSize <= |data|) || !IsValidFunctionPtr(ReadPointer(data, offset), data, base)
    ensures FunctionsFrom(config, data, base, offset, index) == []
  {
  }

  method AnalyzePotentialVtable(config: ScanConfig, data: seq<byte>, base: nat, offset: nat) returns (r: Option<VTable>)
    ensures r.None? <==> Candidate(config, data, base, offset).None?
    ensures r.Some? ==> fresh(r.value) && r.value.Valid() && r.value.Value() == Candidate(config, data, base, offset).value
  {
    var vtable := new VTable(base + offset);
    var current := offset;
    if config.includeRtti {
      if current + PointerSize <= |data| {
        var rtti := ReadPointer(data, current);
        if IsRttiTypeInfo(rtti, data, base) {
          vtable.typeInfoPtr := Some(rtti);
          current := current + PointerSize;
        }
      }
    }
    assert vtable.typeInfoPtr == RttiSlot(config, data, base, offset);
    assert current == if vtable.typeInfoPtr.Some? then offset + PointerSize else offset;
    AddFunctionRun(config, data, base, vtable, current);
    if vtable.FunctionCount() >= config.minFunctions {
      r := Some(vtable);
    } else {
      r := None;
    }
  }

  /** The slot loop of `analyze_potential_vtable`: appends the run that starts at `start`. */
  method AddFunctionRun(config: ScanConfig, data: seq<byte>, base: nat, vtable: VTable, start: nat)
    requires vtable.functions == [] && vtable.Valid()
    modifies vtable
    ensures vtable.functions == FunctionsFrom(config, data, base, start, 0) && vtable.Valid()
    ensures vtable.baseAddress == old(vtable.baseAddress) && vtable.typeInfoPtr == old(vtable.typeInfoPtr)
  {
    var current := start;
    var index: nat := 0;
    while index < config.maxFunctions && current + PointerSize <= |data|
      invariant current == start + PointerSize * index
      invariant vtable.functions + FunctionsFrom(config, data, base, current, index) == FunctionsFrom(config, data, base, start, 0)
      invariant vtable.Valid()
      invariant vtable.baseAddress == old(vtable.baseAddress) && vtable.typeInfoPtr == old(vtable.typeInfoPtr)
      decreases config.maxFunctions - index
    {
      var ptr := ReadPointer(data, current);
      if !IsValidFunctionPtr(ptr, data, base) {
        FunctionsFromStop(config, data, base, current, index);
        break;
      }
      ghost var before, at, i := vtable.functions, current, index;
      vtable.AddFunction(ptr, index);
      index := index + 1;
      current := current + PointerSize;
      FunctionsFromStep(config, data, base, at, i, ptr, current, index);
      Regroup(before, FunctionsFrom(config, data, base, at, i), [VirtualFunction(ptr, i)],
              FunctionsFrom(config, data, base, current, index), vtable.functions,
              FunctionsFrom(config, data, base, start, 0));
    }
    FunctionsFromStop(config, data, base, current, index);
  }

  // ---------------------------------------------------------------------------
  // The aligned scan (`scan_vtables`)

  /** What the scan emits at offset `i` itself: the candidate there, unless its address
      is excluded. */
  function ScanAt(config: ScanConfig, data: seq<byte>, base: nat, i: nat): (ts: seq<TableValue>)
    ensures |ts| <= 1
    ensures ts != [] ==> !IsAddressExcluded(config.excludedRanges, base + i) &&
                         Candidate(config, data, base, i) == Some(ts[0]) && ts[0].base == base + i
  {
    if IsAddressExcluded(config.excludedRanges, base + i) then []
    else match Candidate(config, data, base, i)
         case None => []
         case Some(t) => [t]
  }

  /** An aligned sweep from offset `i` over a buffer of `len` bytes: the offsets `i`,
      `i + step`, … while a whole slot remains, each contributing what `at` emits there. */
  function Sweep(at: nat -> seq<TableValue>, len: nat, step: nat, i: nat): seq<TableValue>
    requires step > 0
    decreases len - i
  {
    if i >= len || i + PointerSize > len then [] else at(i) + Sweep(at, len, step, i + step)
  }

  /** `at` emits at most one table at each offset, based at `base` plus that offset. */
  ghost predicate EmitsAtOffset(at: nat -> seq<TableValue>, base: nat)
  {
    forall j: nat :: |at(j)| <= 1 && (at(j) != [] ==> at(j)[0].base == base + j)
  }

  /** The tables emitted from offset `i` on. */
  function ScanFrom(config: ScanConfig, data: seq<byte>, base: nat, i: nat): seq<TableValue>
    requires config.alignment > 0
  {
    Sweep(EmittedAt(config, data, base), |data|, config.alignment, i)
  }

  /** What the scan emits, as a function of the offset. */
  function EmittedAt(config: ScanConfig, data: seq<byte>, base: nat): nat -> seq<TableValue>
  {
    (j: nat) => ScanAt(config, data, base, j)
  }

  lemma EmittedAtOffset(config: ScanConfig, data: seq<byte>, base: nat)
    ensures EmitsAtOffset(EmittedAt(config, data, base), base)
  {
  }

  /** The scan from `at` is what `at` emits followed by the scan one step on, at `i`. */
  lemma ScanFromUnfold(config: ScanConfig, data: seq<byte>, base: nat, at: nat, i: nat)
    requires config.alignment > 0 && at + PointerSize <= |data| && i == at + config.alignment
    ensures ScanFrom(config, data, base, at) == ScanAt(config, data, base, at) + ScanFrom(config, data, base, i)
  {
  }

  /** Every entry of a sweep from `i` was emitted at the offset `n` whole steps after
      `i`, with a whole slot left. */
  lemma {:induction false} SweepSpec(at: nat -> seq<TableValue>, base: nat, len: nat, step: nat, i: nat, k: nat)
    returns (n: nat)
    requires step > 0 && EmitsAtOffset(at, base)
    requires k < |Sweep(at, len, step, i)|
    ensures var t := Sweep(at, len, step, i)[k];
            base + i <= t.base == base + i + n * step && t.base - base + PointerSize <= len &&
            at(t.base - base) == [t]
    decreases len - i
  {
    var here := at(i);
    var rest := Sweep(at, len, step, i + step);
    assert Sweep(at, len, step, i) == here + rest;
    if k >= |here| {
      var m := SweepSpec(at, base, len, step, i + step, k - |here|);
      assert Sweep(at, len, step, i)[k] == rest[k - |here|];
      n := m + 1;
      assert n * step == m * step + step;
    } else {
      assert here == [here[0]];
      n := 0;
    }
  }

  /** A whole number of steps is a multiple of the step. */
  lemma {:induction false} MultipleMod(n: nat, a: int, j: int)
    requires a > 0 && j == n * a
    ensures j >= 0 && j % a == 0
  {
    if n > 0 {
      MultipleMod(n - 1, a, j - a);
      ModAddDivisor(j - a, a);
    }
  }

  /** A positive multiple of `a` is at least `a`. */
  lemma MulAtLeast(a: int, k: int)
    requires a > 0 && k >= 1
    ensures a * k >= a
  {
    assert a * k == a + a * (k - 1);
  }

  /** Adding the divisor keeps a multiple a multiple. */
  lemma ModAddDivisor(x: int, a: int)
    requires a > 0 && x % a == 0
    ensures (x + a) % a == 0
  {
    var q := x / a;
    var q2, r := (x + a) / a, (x + a) % a;
    assert x == a * q + x % a;
    assert x + a == a * q2 + r;
    assert a * (q + 1) == a * q + a;
    var d := q + 1 - q2;
    assert a * d == a * (q + 1) - a * q2;
    assert a * d == r;
    if d >= 1 {
      MulAtLeast(a, d);
    }
  }

  /** Table addresses strictly increase along the list. */
  predicate IncreasingBases(ts: seq<TableValue>)
  {
    forall k1, k2 :: 0 <= k1 < k2 < |ts| ==> ts[k1].base < ts[k2].base
  }

  lemma IncreasingCons(t: TableValue, rest: seq<TableValue>)
    requires IncreasingBases(rest)
    requires forall k :: 0 <= k < |rest| ==> t.base < rest[k].base
    ensures IncreasingBases([t] + rest)
  {
    var ts := [t] + rest;
    forall k1, k2 | 0 <= k1 < k2 < |ts|
      ensures ts[k1].base < ts[k2].base
    {
      assert ts[k2] == rest[k2 - 1];
      if k1 > 0 {
        assert ts[k1] == rest[k1 - 1];
      }
    }
  }

  /** The bases of a sweep strictly increase. */
  lemma {:induction false} SweepIncreasing(at: nat -> seq<TableValue>, base: nat, len: nat, step: nat, i: nat)
    requires step > 0 && EmitsAtOffset(at, base)
    ensures IncreasingBases(Sweep(at, len, step, i))
    decreases len - i
  {
    if !(i >= len || i + PointerSize > len) {
      var here := at(i);
      var rest := Sweep(at, len, step, i + step);
      assert Sweep(at, len, step, i) == here + rest;
      SweepIncreasing(at, base, len, step, i + step);
      if here != [] {
        forall k | 0 <= k < |rest|
          ensures here[0].base < rest[k].base
        {
          var _ := SweepSpec(at, base, len, step, i + step, k);
        }
        IncreasingCons(here[0], rest);
        assert here == [here[0]];
      }
    }
  }

  /** The whole scan: every emitted table sits at an aligned, non-excluded offset of
      the buffer with a whole slot left, is the candidate there, and the bases strictly
      increase. */
  lemma ScanSpec(config: ScanConfig, data: seq<byte>, base: nat)
    requires config.alignment > 0
    ensures var ts := ScanFrom(config, data, base, 0);
            (forall k :: 0 <= k < |ts| ==>
               var j := ts[k].base - base;
               base <= ts[k].base && j % config.alignment == 0 && j + PointerSize <= |data| &&
               !IsAddressExcluded(config.excludedRanges, ts[k].base) &&
               Candidate(config, data, base, j) == Some(ts[k])) &&
            IncreasingBases(ts)
  {
    var ts := ScanFrom(config, data, base, 0);
    forall k | 0 <= k < |ts|
      ensures var j := ts[k].base - base;
              base <= ts[k].base && j % config.alignment == 0 && j + PointerSize <= |data| &&
              !IsAddressExcluded(config.excludedRanges, ts[k].base) &&
              Candidate(config, data, base, j) == Some(ts[k])
    {
      ScanEntry(config, data, base, k);
    }
    EmittedAtOffset(config, data, base);
    SweepIncreasing(EmittedAt(config, data, base), base, |data|, config.alignment, 0);
  }

  /** Entry `k` of the scan sits at an aligned, non-excluded offset with a whole slot
      left, and is the candidate there. */
  lemma ScanEntry(config: ScanConfig, data: seq<byte>, base: nat, k: nat)
    requires config.alignment > 0 && k < |ScanFrom(config, data, base, 0)|
    ensures var t := ScanFrom(config, data, base, 0)[k];
            var j := t.base - base;
            base <= t.base && j % config.alignment == 0 && j + PointerSize <= |data| &&
            !IsAddressExcluded(config.excludedRanges, t.base) &&
            Candidate(config, data, base, j) == Some(t)
  {
    EmittedAtOffset(config, data, base);
    var n := SweepSpec(EmittedAt(config, data, base), base, |data|, config.alignment, 0, k);
    var t := ScanFrom(config, data, base, 0)[k];
    MultipleMod(n, config.alignment, t.base - base);
    EmittedAtApply(config, data, base, t.base - base);
  }

  lemma EmittedAtApply(config: ScanConfig, data: seq<byte>, base: nat, j: nat)
    ensures EmittedAt(config, data, base)(j) == ScanAt(config, data, base, j)
  {
  }

  /** A table the scan emits lies a whole slot inside the buffer and has an admissible
      number of functions. */
  lemma ScanFromMember(config: ScanConfig, data: seq<byte>, base: nat, t: TableValue)
    requires config.alignment > 0 && t in ScanFrom(config, data, base, 0)
    ensures base <= t.base && t.base - base + PointerSize <= |data|
    ensures config.minFunctions <= |t.functions| <= config.maxFunctions
  {
    var ts := ScanFrom(config, data, base, 0);
    var k :| 0 <= k < |ts| && ts[k] == t;
    ScanEntry(config, data, base, k);
    CandidateSpec(config, data, base, t.base - base, t);
  }

  /** `scan_vtables`. `step_by` panics on a zero step, so the alignment must be positive. */
  method ScanVTables(scanner: VTableScanner, data: seq<byte>, base: nat) returns (vts: seq<VTable>)
    requires scanner.config.alignment > 0
    ensures Values(vts) == ScanFrom(scanner.config, data, base, 0)
    ensures forall k :: 0 <= k < |vts| ==> fresh(vts[k]) && vts[k].Valid()
  {
    var config := scanner.config;
    vts := [];
    var i: nat := 0;
    while i < |data|
      invariant Values(vts) + ScanFrom(config, data, base, i) == ScanFrom(config, data, base, 0)
      invariant forall k :: 0 <= k < |vts| ==> fresh(vts[k]) && vts[k].Valid()
      decreases |data| - i
    {
      if i + PointerSize > |data| {
        break;
      }
      ghost var before, at := Values(vts), i;
      vts := ScanOffset(config, data, base, i, vts);
      i := i + config.alignment;
      ScanFromUnfold(config, data, base, at, i);
      Regroup(before, ScanFrom(config, data, base, at), ScanAt(config, data, base, at),
              ScanFrom(config, data, base, i), Values(vts), ScanFrom(config, data, base, 0));
    }
    ScanFromEnd(config, data, base, i);
  }

  /** No table starts where a whole slot no longer fits. */
  lemma ScanFromEnd(config: ScanConfig, data: seq<byte>, base: nat, i: nat)
    requires config.alignment > 0 && (i >= |data| || i + PointerSize > |data|)
    ensures ScanFrom(config, data, base, i) == []
  {
  }

  /** One step of `scan_vtables`: nothing at an excluded address, else the candidate,
      appended to the tables found so far. */
  method ScanOffset(config: ScanConfig, data: seq<byte>, base: nat, i: nat, vts: seq<VTable>) returns (out: seq<VTable>)
    requires forall k :: 0 <= k < |vts| ==> vts[k].Valid()
    ensures Values(out) == old(Values(vts)) + ScanAt(config, data, base, i)
    ensures |vts| <= |out| && forall k :: 0 <= k < |vts| ==> out[k] == vts[k]
    ensures forall k :: |vts| <= k < |out| ==> fresh(out[k])
    ensures forall k :: 0 <= k < |out| ==> out[k].Valid()
  {
    out := vts;
    if !IsAddressExcluded(config.excludedRanges, base + i) {
      var c := AnalyzePotentialVtable(config, data, base, i);
      if c.Some? {
        out := vts + [c.value];
      }
    }
  }

  /** What is emitted at an offset a whole number of steps after `i`, with a whole
      slot left, is part of the sweep from `i`. */
  lemma {:induction false} SweepComplete(at: nat -> seq<TableValue>, len: nat, step: nat, i: nat, n: nat, t: TableValue)
    requires step > 0 && i + n * step + PointerSize <= len
    requires t in at(i + n * step)
    ensures t in Sweep(at, len, step, i)
    decreases n
  {
    assert Sweep(at, len, step, i) == at(i) + Sweep(at, len, step, i + step);
    if n > 0 {
      assert i + n * step == (i + step) + (n - 1) * step;
      SweepComplete(at, len, step, i + step, n - 1, t);
    }
  }

  /** A multiple of `a` is a whole number of steps of `a`. */
  lemma Quotient(j: nat, a: nat) returns (n: nat)
    requires a > 0 && j % a == 0
    ensures j == n * a
  {
    n := j / a;
  }

  /** The converse of `ScanSpec`: the candidate at every aligned, non-excluded offset
      with a whole slot left is one of the tables the scan emits. */
  lemma ScanComplete(config: ScanConfig, data: seq<byte>, base: nat, j: nat, t: TableValue)
    requires config.alignment > 0 && j % config.alignment == 0 && j + PointerSize <= |data|
    requires !IsAddressExcluded(config.excludedRanges, base + j)
    requires Candidate(config, data, base, j) == Some(t)
    ensures t in ScanFrom(config, data, base, 0)
  {
    var n := Quotient(j, config.alignment);
    EmittedAtApply(config, data, base, j);
    SweepComplete(EmittedAt(config, data, base), |data|, config.alignment, 0, n, t);
  }

  /** Without type info, a candidate of two or more slots leaves a whole slot after
      its first. */
  lemma TailFits(config: ScanConfig, data: seq<byte>, base: nat, offset: nat)
    requires !config.includeRtti
    requires Candidate(config, data, base, offset).Some?
    requires |Candidate(config, data, base, offset).value.functions| >= 2
    ensures offset + 2 * PointerSize <= |data|
  {
    FunctionsFromSpec(config, data, base, offset, 0);
    assert offset + PointerSize * 1 + PointerSize <= |data|;
  }

  /** With the default eight-byte step and no type info, a scanned table of more than
      `minFunctions` slots, and at least two, is followed in the scan by the table one
      slot further on, whose slots begin with the remaining addresses, unless that
      address is excluded. (A one-slot table, possible only when `minFunctions` is 0,
      may end a slot before the buffer does, and then nothing follows it.) */
  lemma TailIsAlsoScanned(config: ScanConfig, data: seq<byte>, base: nat, t: TableValue)
    requires !config.includeRtti && config.alignment == PointerSize
    requires t in ScanFrom(config, data, base, 0)
    requires |t.functions| > config.minFunctions && |t.functions| >= 2
    requires !IsAddressExcluded(config.excludedRanges, t.base + PointerSize)
    ensures exists u :: u in ScanFrom(config, data, base, 0) && u.base == t.base + PointerSize &&
              |t.functions| - 1 <= |u.functions| &&
              Addresses(t.functions)[1..] == Addresses(u.functions)[..|t.functions| - 1]
  {
    var ts := ScanFrom(config, data, base, 0);
    var k :| 0 <= k < |ts| && ts[k] == t;
    ScanEntry(config, data, base, k);
    var offset := t.base - base;
    TailIsAlsoCandidate(config, data, base, offset);
    TailScannedAt(config, data, base, offset);
  }

  /** The offset step of `TailIsAlsoScanned`: the candidate one slot after an aligned
      candidate of two or more slots is scanned, unless its address is excluded. */
  lemma TailScannedAt(config: ScanConfig, data: seq<byte>, base: nat, offset: nat)
    requires !config.includeRtti && config.alignment == PointerSize && offset % PointerSize == 0
    requires Candidate(config, data, base, offset).Some?
    requires |Candidate(config, data, base, offset).value.functions| >= 2
    requires Candidate(config, data, base, offset + PointerSize).Some?
    requires !IsAddressExcluded(config.excludedRanges, base + offset + PointerSize)
    ensures Candidate(config, data, base, offset + PointerSize).value in ScanFrom(config, data, base, 0)
  {
    TailFits(config, data, base, offset);
    ModAddDivisor(offset, PointerSize);
    ScanComplete(config, data, base, offset + PointerSize, Candidate(config, data, base, offset + PointerSize).value);
  }

  /** Because the scan restarts at every aligned offset, the tail of a table is proposed
      again one slot further on: without type info, a table of more than `minFunctions`
      slots at `offset` is followed by a candidate at `offset + 8` whose slots begin
      with the remaining addresses. */
  lemma TailIsAlsoCandidate(config: ScanConfig, data: seq<byte>, base: nat, offset: nat)
    requires !config.includeRtti
    requires Candidate(config, data, base, offset).Some?
    requires |Candidate(config, data, base, offset).value.functions| > config.minFunctions
    ensures Candidate(config, data, base, offset + PointerSize).Some?
    ensures var fs := Candidate(config, data, base, offset).value.functions;
            var gs := Candidate(config, data, base, offset + PointerSize).value.functions;
            |fs| - 1 <= |gs| && Addresses(fs)[1..] == Addresses(gs)[..|fs| - 1]
  {
    var fs := FunctionsFrom(config, data, base, offset, 0);
    var rest := FunctionsFrom(config, data, base, offset + PointerSize, 1);
    assert fs == [fs[0]] + rest;
    CapMonotone(config, data, base, offset + PointerSize, 0);
    assert Addresses(fs)[1..] == Addresses(rest);
  }

  /** Lowering the starting index only lets a run go on longer: the run numbered from
      `index + 1` is a prefix, by address, of the run numbered from `index`. */
  lemma {:induction false} CapMonotone(config: ScanConfig, data: seq<byte>, base: nat, offset: nat, index: nat)
    ensures var short := FunctionsFrom(config, data, base, offset, index + 1);
            var long := FunctionsFrom(config, data, base, offset, index);
            |short| <= |long| && Addresses(short) == Addresses(long)[..|short|]
    decreases config.maxFunctions - index
  {
    var short := FunctionsFrom(config, data, base, offset, index + 1);
    var long := FunctionsFrom(config, data, base, offset, index);
    if short != [] {
      CapMonotone(config, data, base, offset + PointerSize, index + 1);
      var s1 := FunctionsFrom(config, data, base, offset + PointerSize, index + 2);
      var l1 := FunctionsFrom(config, data, base, offset + PointerSize, index + 1);
      assert short == [short[0]] + s1;
      assert long == [long[0]] + l1;
      assert Addresses(short) == [short[0].address] + Addresses(s1);
      assert Addresses(long) == [long[0].address] + Addresses(l1);
    }
  }

  // ---------------------------------------------------------------------------
  // Inheritance (`is_derived_vtable`, `analyze_inheritance`)

  /** A derived table has at least the base's slots and the same addresses in them. */
  predicate Derived(b: seq<VirtualFunction>, d: seq<VirtualFunction>)
  {
    |d| >= |b| && forall i :: 0 <= i < |b| ==> b[i].address == d[i].address
  }

  /** Derivation is a prefix test on the address lists. */
  lemma DerivedIsAddressPrefix(b: seq<VirtualFunction>, d: seq<VirtualFunction>)
    ensures Derived(b, d) <==> |b| <= |d| && Addresses(b) == Addresses(d)[..|b|]
  {
    if |b| <= |d| && Addresses(b) == Addresses(d)[..|b|] {
      forall i | 0 <= i < |b|
        ensures b[i].address == d[i].address
      {
        assert Addresses(b)[i] == Addresses(d)[..|b|][i];
      }
    }
  }

  lemma DerivedReflexive(fs: seq<VirtualFunction>)
    ensures Derived(fs, fs)
  {
  }

  lemma DerivedTransitive(a: seq<VirtualFunction>, b: seq<VirtualFunction>, c: seq<VirtualFunction>)
    requires Derived(a, b) && Derived(b, c)
    ensures Derived(a, c)
  {
  }

  /** Two lists each derived from the other have the same addresses. */
  lemma DerivedAntisymmetric(a: seq<VirtualFunction>, b: seq<VirtualFunction>)
    requires Derived(a, b) && Derived(b, a)
    ensures Addresses(a) == Addresses(b)
  {
  }

  /** `[A, B]` is extended by `[A, B, C]` and not by `[A, X, C]`. */
  lemma DerivedExample()
    ensures Derived([VirtualFunction(0xA, 0), VirtualFunction(0xB, 1)],
                    [VirtualFunction(0xA, 0), VirtualFunction(0xB, 1), VirtualFunction(0xC, 2)])
    ensures !Derived([VirtualFunction(0xA, 0), VirtualFunction(0xB, 1)],
                     [VirtualFunction(0xA, 0), VirtualFunction(0x99, 1), VirtualFunction(0xC, 2)])
  {
    var b := [VirtualFunction(0xA, 0), VirtualFunction(0xB, 1)];
    var x := [VirtualFunction(0xA, 0), VirtualFunction(0x99, 1), VirtualFunction(0xC, 2)];
    assert b[1].address != x[1].address;
  }

  /** `is_derived_vtable`: compares slot by slot and stops at the first difference. */
  method IsDerivedVTable(base: VTable, derived: VTable) returns (r: bool)
    ensures r <==> Derived(base.functions, derived.functions)
  {
    if derived.FunctionCount() < base.FunctionCount() {
      return false;
    }
    var n := |base.functions|;
    for i := 0 to n
      invariant forall k :: 0 <= k < i ==> base.functions[k].address == derived.functions[k].address
    {
      var bf := base.GetFunction(i);
      var df := derived.GetFunction(i);
      if bf.Some? && df.Some? {
        if bf.value.address != df.value.address {
          return false;
        }
      }
    }
    return true;
  }

  /** The bases, in list order, of the other-address tables derived from `b`. */
  function DerivedOf(b: TableValue, vs: seq<TableValue>): seq<nat>
  {
    if vs == [] then []
    else
      var d := vs[|vs| - 1];
      DerivedOf(b, vs[..|vs| - 1]) + (if d.base != b.base && Derived(b.functions, d.functions) then [d.base] else [])
  }

  /** An address is listed exactly when some table at that address, other than `b`'s
      own, extends `b`. */
  lemma {:induction false} DerivedOfSpec(b: TableValue, vs: seq<TableValue>, a: nat)
    ensures a in DerivedOf(b, vs) <==>
            exists k :: 0 <= k < |vs| && vs[k].base == a && a != b.base && Derived(b.functions, vs[k].functions)
  {
    if vs != [] {
      var init := vs[..|vs| - 1];
      DerivedOfSpec(b, init, a);
      assert forall k :: 0 <= k < |init| ==> init[k] == vs[k];
      if exists k :: 0 <= k < |vs| && vs[k].base == a && a != b.base && Derived(b.functions, vs[k].functions) {
        var k :| 0 <= k < |vs| && vs[k].base == a && a != b.base && Derived(b.functions, vs[k].functions);
        if k < |init| {
          assert init[k] == vs[k];
        }
      }
    }
  }

  /** The inheritance map after the first `n` tables: an entry for each table with a
      non-empty derived list, a later table at the same address overwriting. */
  function InheritanceUpTo(vs: seq<TableValue>, n: nat): map<nat, seq<nat>>
    requires n <= |vs|
  {
    if n == 0 then map[]
    else
      var m := InheritanceUpTo(vs, n - 1);
      var ds := DerivedOf(vs[n - 1], vs);
      if ds == [] then m else m[vs[n - 1].base := ds]
  }

  function Inheritance(vs: seq<TableValue>): map<nat, seq<nat>>
  {
    InheritanceUpTo(vs, |vs|)
  }

  /** No two tables share an address. */
  predicate DistinctBases(vs: seq<TableValue>)
  {
    forall i, j :: 0 <= i < j < |vs| ==> vs[i].base != vs[j].base
  }

  /** Every key of the map built from the first `n` tables is the address of one of
      them, and its list is not empty. */
  lemma {:induction false} InheritanceKeys(vs: seq<TableValue>, n: nat)
    requires n <= |vs|
    ensures forall a :: a in InheritanceUpTo(vs, n) ==>
              exists k :: 0 <= k < n && vs[k].base == a && InheritanceUpTo(vs, n)[a] != []
  {
    if n > 0 {
      InheritanceKeys(vs, n - 1);
      var m := InheritanceUpTo(vs, n - 1);
      var ds := DerivedOf(vs[n - 1], vs);
      var r := InheritanceUpTo(vs, n);
      assert r == if ds == [] then m else m[vs[n - 1].base := ds];
      forall a | a in r
        ensures exists k :: 0 <= k < n && vs[k].base == a && r[a] != []
      {
        if ds != [] && a == vs[n - 1].base {
          assert vs[n - 1].base == a && r[a] != [];
        } else {
          var k :| 0 <= k < n - 1 && vs[k].base == a && m[a] != [];
          assert vs[k].base == a && r[a] != [];
        }
      }
    }
  }

  /** The table at `k` has an entry in the map built from the first `n` tables exactly
      when something derives from it, and the entry is its derived list. */
  predicate EntryIsDerived(vs: seq<TableValue>, n: nat, k: nat)
    requires k < n <= |vs|
  {
    var r := InheritanceUpTo(vs, n);
    (vs[k].base in r <==> DerivedOf(vs[k], vs) != []) &&
    (vs[k].base in r ==> r[vs[k].base] == DerivedOf(vs[k], vs))
  }

  /** With distinct addresses, every table among the first `n` has its derived list as its entry. */
  lemma {:induction false} InheritanceEntries(vs: seq<TableValue>, n: nat)
    requires n <= |vs| && DistinctBases(vs)
    ensures forall k :: 0 <= k < n ==> EntryIsDerived(vs, n, k)
  {
    if n > 0 {
      InheritanceEntries(vs, n - 1);
      forall k | 0 <= k < n
        ensures EntryIsDerived(vs, n, k)
      {
        EntryStep(vs, n, k);
      }
    }
  }

  /** Adding the table at `n - 1` keeps the entries of the earlier tables and gives it its own. */
  lemma EntryStep(vs: seq<TableValue>, n: nat, k: nat)
    requires k < n <= |vs| && DistinctBases(vs)
    requires k < n - 1 ==> EntryIsDerived(vs, n - 1, k)
    ensures EntryIsDerived(vs, n, k)
  {
    if k < n - 1 {
      EntryKept(vs, n, k);
    } else {
      EntryAdded(vs, n);
    }
  }

  lemma EntryKept(vs: seq<TableValue>, n: nat, k: nat)
    requires k < n - 1 && n <= |vs| && vs[k].base != vs[n - 1].base
    requires EntryIsDerived(vs, n - 1, k)
    ensures EntryIsDerived(vs, n, k)
  {
    var m := InheritanceUpTo(vs, n - 1);
    var ds := DerivedOf(vs[n - 1], vs);
    UpdateElsewhere(m, InheritanceUpTo(vs, n), vs[n - 1].base, ds, vs[k].base, DerivedOf(vs[k], vs));
  }

  lemma EntryAdded(vs: seq<TableValue>, n: nat)
    requires 0 < n <= |vs| && DistinctBases(vs)
    ensures EntryIsDerived(vs, n, n - 1)
  {
    FreshKey(vs, n - 1);
    UpdateHere(InheritanceUpTo(vs, n - 1), InheritanceUpTo(vs, n), vs[n - 1].base, DerivedOf(vs[n - 1], vs));
  }

  /** With distinct addresses, the next table's address is not yet a key. */
  lemma FreshKey(vs: seq<TableValue>, n: nat)
    requires n < |vs| && DistinctBases(vs)
    ensures vs[n].base !in InheritanceUpTo(vs, n)
  {
    InheritanceKeys(vs, n);
    assert forall k :: 0 <= k < n ==> vs[k].base != vs[n].base;
  }

  /** A conditional map update leaves every other key as it was. */
  lemma UpdateElsewhere(m: map<nat, seq<nat>>, r: map<nat, seq<nat>>, b: nat, ds: seq<nat>, a: nat, d: seq<nat>)
    requires r == (if ds == [] then m else m[b := ds]) && a != b
    requires (a in m <==> d != []) && (a in m ==> m[a] == d)
    ensures (a in r <==> d != []) && (a in r ==> r[a] == d)
  {
  }

  /** A conditional map update gives its key an entry exactly when the list is not empty. */
  lemma UpdateHere(m: map<nat, seq<nat>>, r: map<nat, seq<nat>>, b: nat, ds: seq<nat>)
    requires r == (if ds == [] then m else m[b := ds]) && b !in m
    ensures (b in r <==> ds != []) && (b in r ==> r[b] == ds)
  {
  }

  lemma InheritanceSpec(vs: seq<TableValue>)
    requires DistinctBases(vs)
    ensures forall a :: a in Inheritance(vs) ==> exists k :: 0 <= k < |vs| && vs[k].base == a
    ensures forall k :: 0 <= k < |vs| ==>
              (vs[k].base in Inheritance(vs) <==> DerivedOf(vs[k], vs) != []) &&
              (vs[k].base in Inheritance(vs) ==> Inheritance(vs)[vs[k].base] == DerivedOf(vs[k], vs))
  {
    InheritanceKeys(vs, |vs|);
    InheritanceEntries(vs, |vs|);
    forall k | 0 <= k < |vs|
      ensures (vs[k].base in Inheritance(vs) <==> DerivedOf(vs[k], vs) != []) &&
              (vs[k].base in Inheritance(vs) ==> Inheritance(vs)[vs[k].base] == DerivedOf(vs[k], vs))
    {
      assert EntryIsDerived(vs, |vs|, k);
    }
  }

  lemma InheritanceStep(vs: seq<TableValue>, i: nat, ds: seq<nat>, a: nat, before: map<nat, seq<nat>>, after: map<nat, seq<nat>>)
    requires i < |vs| && before == InheritanceUpTo(vs, i)
    requires ds == DerivedOf(vs[i], vs) && a == vs[i].base
    requires after == if ds == [] then before else before[a := ds]
    ensures after == InheritanceUpTo(vs, i + 1)
  {
  }

  /** `analyze_inheritance`: for each table, the other-address tables that extend it. */
  method AnalyzeInheritance(vts: seq<VTable>) returns (m: map<nat, seq<nat>>)
    ensures m == Inheritance(Values(vts))
  {
    ghost var vs := Values(vts);
    m := map[];
    for i := 0 to |vts|
      invariant m == InheritanceUpTo(vs, i)
    {
      m := AddDerived(vts, i, vs, m);
    }
  }

  /** One pass of the outer loop of `analyze_inheritance`: the entry of the table at `i`. */
  method AddDerived(vts: seq<VTable>, i: nat, ghost vs: seq<TableValue>, m: map<nat, seq<nat>>)
    returns (m': map<nat, seq<nat>>)
    requires i < |vts| && vs == Values(vts) && m == InheritanceUpTo(vs, i)
    ensures m' == InheritanceUpTo(vs, i + 1)
  {
    var ds := DerivedList(vts, i, vs);
    m' := m;
    if ds != [] {
      m' := m[vts[i].baseAddress := ds];
    }
    InheritanceStep(vs, i, ds, vts[i].baseAddress, m, m');
  }

  /** The inner loop of `analyze_inheritance`, for the table at position `i`. */
  method DerivedList(vts: seq<VTable>, i: nat, ghost vs: seq<TableValue>) returns (ds: seq<nat>)
    requires i < |vts| && vs == Values(vts)
    ensures ds == DerivedOf(vs[i], vs)
  {
    ds := [];
    for j := 0 to |vts|
      invariant ds == DerivedOf(vs[i], vs[..j])
    {
      ghost var before := ds;
      var d := false;
      if vts[i].baseAddress != vts[j].baseAddress {
        d := IsDerivedVTable(vts[i], vts[j]);
        if d {
          ds := ds + [vts[j].baseAddress];
        }
      }
      assert vts[i].Value() == vs[i] && vts[j].Value() == vs[j];
      DerivedOfSnoc(vs[i], vs, j, before, ds);
    }
    assert vs[..|vts|] == vs;
  }

  /** Looking at one more table extends the derived list by that table's address when it
      sits elsewhere and extends `b`. */
  lemma DerivedOfSnoc(b: TableValue, vs: seq<TableValue>, j: nat, before: seq<nat>, after: seq<nat>)
    requires j < |vs| && before == DerivedOf(b, vs[..j])
    requires after == before + (if vs[j].base != b.base && Derived(b.functions, vs[j].functions) then [vs[j].base] else [])
    ensures after == DerivedOf(b, vs[..j + 1])
  {
    assert vs[..j + 1][..j] == vs[..j];
  }

  // ---------------------------------------------------------------------------
  // Pattern-based discovery (`find_vtables_by_patterns`)

  /** Sixteen wildcards `?? ?? … ??` (any 16 bytes), `push rbp; mov rbp, rsp`,
      `sub rsp, imm8`. */
  const VTablePatterns: seq<string> := [WildcardsText(16), "55 48 89 E5", "48 83 EC ??"]

  /** The hits of each text in turn, concatenated; the first parse error wins. */
  function ScanAll(s: Matchers.PatternScanner, texts: seq<string>, data: seq<byte>): Result<seq<PatternMatch>, PatternError>
  {
    if texts == [] then Ok([])
    else
      match Matchers.Scan(s, texts[0], data)
      case Err(e) => Err(e)
      case Ok(ms) =>
        match ScanAll(s, texts[1..], data)
        case Err(e) => Err(e)
        case Ok(rest) => Ok(ms + rest)
  }

  function Prepend(ms: seq<PatternMatch>, r: Result<seq<PatternMatch>, PatternError>): Result<seq<PatternMatch>, PatternError>
  {
    match r
    case Err(e) => Err(e)
    case Ok(rest) => Ok(ms + rest)
  }

  /** The reference hits of each pattern in turn, concatenated. */
  function AllHits(ps: seq<Pattern>, data: seq<byte>): seq<PatternMatch>
  {
    if ps == [] then [] else Naive.AllMatches(ps[0], data) + AllHits(ps[1..], data)
  }

  /** When every text parses, scanning them all gives each pattern's hits in turn. */
  lemma {:induction false} ScanAllOk(s: Matchers.PatternScanner, texts: seq<string>, ps: seq<Pattern>, data: seq<byte>)
    requires |texts| == |ps|
    requires forall k :: 0 <= k < |texts| ==> Parse(texts[k]) == Ok(ps[k])
    ensures ScanAll(s, texts, data) == Ok(AllHits(ps, data))
  {
    if texts != [] {
      Matchers.FindAllAgrees(s.matcher, ps[0], data);
      ScanAllOk(s, texts[1..], ps[1..], data);
    }
  }

  lemma ScanAllStep(s: Matchers.PatternScanner, texts: seq<string>, i: nat, data: seq<byte>)
    requires i < |texts|
    ensures ScanAll(s, texts[i..], data)
         == match Matchers.Scan(s, texts[i], data)
            case Err(e) => Err(e)
            case Ok(ms) => Prepend(ms, ScanAll(s, texts[i + 1..], data))
  {
    assert texts[i..][0] == texts[i] && texts[i..][1..] == texts[i + 1..];
  }

  lemma PrependPrepend(a: seq<PatternMatch>, b: seq<PatternMatch>, r: Result<seq<PatternMatch>, PatternError>)
    ensures Prepend(a, Prepend(b, r)) == Prepend(a + b, r)
  {
    if r.Ok? {
      assert a + (b + r.value) == (a + b) + r.value;
    }
  }

  /** The loop of `find_vtables_by_patterns` over any list of texts. */
  method ScanTexts(s: Matchers.PatternScanner, texts: seq<string>, data: seq<byte>) returns (r: Result<seq<PatternMatch>, PatternError>)
    ensures r == ScanAll(s, texts, data)
  {
    var all: seq<PatternMatch> := [];
    var i := 0;
    assert texts[0..] == texts;
    assert Prepend(all, ScanAll(s, texts, data)) == ScanAll(s, texts, data) by {
      if ScanAll(s, texts, data).Ok? {
        assert [] + ScanAll(s, texts, data).value == ScanAll(s, texts, data).value;
      }
    }
    while i < |texts|
      invariant 0 <= i <= |texts|
      invariant ScanAll(s, texts, data) == Prepend(all, ScanAll(s, texts[i..], data))
    {
      var found := Matchers.Scan(s, texts[i], data);
      ScanAllStep(s, texts, i, data);
      if found.Err? {
        return Err(found.error);
      }
      PrependPrepend(all, found.value, ScanAll(s, texts[i + 1..], data));
      all := all + found.value;
      i := i + 1;
    }
    assert texts[i..] == [];
    assert all + [] == all;
    return Ok(all);
  }

  /** `find_vtables_by_patterns`. */
  method FindVTablesByPatterns(scanner: VTableScanner, data: seq<byte>) returns (r: Result<seq<PatternMatch>, PatternError>)
    ensures r == ScanAll(scanner.patternScanner, VTablePatterns, data)
  {
    r := ScanTexts(scanner.patternScanner, VTablePatterns, data);
  }

  lemma ParseAllWildcards()
    ensures Parse(VTablePatterns[0]) == Ok(Pattern(AllWildcards(16), MaskOf(AllWildcards(16))))
  {
    FormatWildcards(16);
    FormatRoundTrip(AllWildcards(16));
  }

  lemma PrologueFormat(p: seq<Option<byte>>)
    requires p == [Some(0x55), Some(0x48), Some(0x89), Some(0xE5)]
    ensures Format(p) == "55 48 89 E5"
  {
    assert TokenText(p[0]) == "55" by { assert HexDigit(5) == '5'; }
    assert TokenText(p[1]) == "48" by { assert HexDigit(4) == '4' && HexDigit(8) == '8'; }
    assert TokenText(p[2]) == "89" by { assert HexDigit(8) == '8' && HexDigit(9) == '9'; }
    assert TokenText(p[3]) == "E5" by { assert HexDigit(14) == 'E' && HexDigit(5) == '5'; }
    FormatFour(p[0], p[1], p[2], p[3]);
  }

  lemma ParseProloguePattern()
    ensures Parse(VTablePatterns[1]) == Ok(Pattern([Some(0x55), Some(0x48), Some(0x89), Some(0xE5)], "xxxx"))
  {
    var p: seq<Option<byte>> := [Some(0x55), Some(0x48), Some(0x89), Some(0xE5)];
    PrologueFormat(p);
    FormatRoundTrip(p);
    assert MaskOf(p) == "xxxx";
  }

  lemma StackFormat(p: seq<Option<byte>>)
    requires p == [Some(0x48), Some(0x83), Some(0xEC), None]
    ensures Format(p) == "48 83 EC ??"
  {
    assert TokenText(p[0]) == "48" by { assert HexDigit(4) == '4' && HexDigit(8) == '8'; }
    assert TokenText(p[1]) == "83" by { assert HexDigit(8) == '8' && HexDigit(3) == '3'; }
    assert TokenText(p[2]) == "EC" by { assert HexDigit(14) == 'E' && HexDigit(12) == 'C'; }
    FormatFour(p[0], p[1], p[2], p[3]);
  }

  lemma ParseStackPattern()
    ensures Parse(VTablePatterns[2]) == Ok(Pattern([Some(0x48), Some(0x83), Some(0xEC), None], "xxx?"))
  {
    var p: seq<Option<byte>> := [Some(0x48), Some(0x83), Some(0xEC), None];
    StackFormat(p);
    FormatRoundTrip(p);
    assert MaskOf(p) == "xxx?";
  }

  /** The three patterns of `find_vtables_by_patterns`, parsed. */
  function VTablePatternValues(): seq<Pattern>
  {
    [Pattern(AllWildcards(16), MaskOf(AllWildcards(16))),
     Pattern([Some(0x55), Some(0x48), Some(0x89), Some(0xE5)], "xxxx"),
     Pattern([Some(0x48), Some(0x83), Some(0xEC), None], "xxx?")]
  }

  /** Each built-in pattern text parses to its value. */
  lemma VTablePatternParses(k: nat)
    requires k < 3
    ensures Parse(VTablePatterns[k]) == Ok(VTablePatternValues()[k])
  {
    if k == 0 {
      ParseAllWildcards();
    } else if k == 1 {
      ParseProloguePattern();
    } else {
      ParseStackPattern();
    }
  }

  /** Pattern discovery never fails: it reports every 16-byte window, then every
      `55 48 89 E5`, then every `48 83 EC ??`, each group as the reference matcher does. */
  lemma FindVTablesByPatternsSpec(scanner: VTableScanner, data: seq<byte>)
    ensures ScanAll(scanner.patternScanner, VTablePatterns, data) == Ok(AllHits(VTablePatternValues(), data))
  {
    var texts := VTablePatterns;
    var ps := VTablePatternValues();
    forall k | 0 <= k < |texts|
      ensures Parse(texts[k]) == Ok(ps[k])
    {
      VTablePatternParses(k);
    }
    ScanAllOk(scanner.patternScanner, texts, ps, data);
  }

  /** The all-wildcard pattern matches at every offset that leaves 16 bytes. */
  lemma WildcardWindowsEverywhere(data: seq<byte>, o: nat)
    requires o + 16 <= |data|
    ensures PatternMatch(o, 16) in Naive.AllMatches(VTablePatternValues()[0], data)
  {
    var p := VTablePatternValues()[0];
    assert Matches(p, data, o);
    Naive.AllMatchesSpec(p, data);
  }
}
