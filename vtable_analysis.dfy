/** Reconstruction of a class hierarchy from discovered tables: one class record per
    table address, the functions shared between tables, and an object-size estimate. */
module VTableAnalysis {
  import opened Common
  import opened VTables

  /** What the analysis knows about one class. */
  datatype ClassInfo = ClassInfo(vtableAddress: nat, name: string, functions: seq<VirtualFunction>,
                                 baseClasses: seq<nat>, derivedClasses: seq<nat>)

  /** The classes found, keyed by their table's address. */
  class ClassHierarchy {
    var classes: map<nat, ClassInfo>

    /** Every class is filed under its own table address. */
    ghost predicate Valid()
      reads this
    {
      forall a :: a in classes ==> classes[a].vtableAddress == a
    }

    constructor ()
      ensures classes == map[] && Valid()
    {
      classes := map[];
    }

    /** `add_class`: files the class under its address, replacing any class there. */
    method AddClass(c: ClassInfo)
      requires Valid()
      modifies this
      ensures classes == old(classes)[c.vtableAddress := c] && Valid()
    {
      classes := classes[c.vtableAddress := c];
    }

    function GetClass(address: nat): (r: Option<ClassInfo>)
      reads this
      ensures r.Some? <==> address in classes
      ensures r.Some? ==> r.value == classes[address]
      ensures Valid() && r.Some? ==> r.value.vtableAddress == address
    {
      if address in classes then Some(classes[address]) else None
    }

    /** `get_all_classes`, as a set: the iteration order of the map is not modelled. */
    function AllClasses(): (r: set<ClassInfo>)
      reads this
      ensures forall c :: c in r <==> exists a :: a in classes && classes[a] == c
    {
      classes.Values
    }

    /** `find_root_classes`: the classes with no base class. */
    function FindRootClasses(): (r: set<ClassInfo>)
      reads this
      ensures forall c :: c in r <==> c in AllClasses() && c.baseClasses == []
    {
      set c | c in classes.Values && c.baseClasses == []
    }

    /** `find_leaf_classes`: the classes nothing derives from. */
    function FindLeafClasses(): (r: set<ClassInfo>)
      reads this
      ensures forall c :: c in r <==> c in AllClasses() && c.derivedClasses == []
    {
      set c | c in classes.Values && c.derivedClasses == []
    }
  }

  // ---------------------------------------------------------------------------
  // Keyed collections built from a list of tables, a later table winning

  /** The map from each of the first `n` tables' addresses to `f` of the table, a later
      table at the same address replacing an earlier one. */
  function Keyed<T>(vs: seq<TableValue>, f: TableValue -> T, n: nat): map<nat, T>
    requires n <= |vs|
  {
    if n == 0 then map[] else Keyed(vs, f, n - 1)[vs[n - 1].base := f(vs[n - 1])]
  }

  /** The keys are exactly the addresses of the tables, and each value comes from the
      last table at that address. */
  lemma {:induction false} KeyedSpec<T>(vs: seq<TableValue>, f: TableValue -> T, n: nat)
    requires n <= |vs|
    ensures forall a :: a in Keyed(vs, f, n) <==> exists k :: 0 <= k < n && vs[k].base == a
    ensures forall a :: a in Keyed(vs, f, n) ==>
              exists k :: 0 <= k < n && vs[k].base == a && Keyed(vs, f, n)[a] == f(vs[k]) &&
                          forall j :: k < j < n ==> vs[j].base != a
  {
    if n > 0 {
      KeyedSpec(vs, f, n - 1);
      var m := Keyed(vs, f, n);
      forall a | a in m
        ensures exists k :: 0 <= k < n && vs[k].base == a && m[a] == f(vs[k]) &&
                            forall j :: k < j < n ==> vs[j].base != a
      {
        if a == vs[n - 1].base {
          assert m[a] == f(vs[n - 1]);
        } else {
          assert a in Keyed(vs, f, n - 1);
          var k :| 0 <= k < n - 1 && vs[k].base == a && Keyed(vs, f, n - 1)[a] == f(vs[k]) &&
                   forall j :: k < j < n - 1 ==> vs[j].base != a;
          assert m[a] == f(vs[k]);
        }
      }
    }
  }

  /** Adding table `n`'s value to the map of the first `n` gives the map of the first `n + 1`. */
  lemma KeyedStep<T>(vs: seq<TableValue>, f: TableValue -> T, n: nat, before: map<nat, T>, x: T, after: map<nat, T>)
    requires n < |vs| && before == Keyed(vs, f, n) && x == f(vs[n]) && after == before[vs[n].base := x]
    ensures after == Keyed(vs, f, n + 1)
  {
  }

  /** With distinct addresses every table's own value is the one kept. */
  lemma KeyedDistinct<T>(vs: seq<TableValue>, f: TableValue -> T, k: nat)
    requires DistinctBases(vs) && k < |vs|
    ensures vs[k].base in Keyed(vs, f, |vs|) && Keyed(vs, f, |vs|)[vs[k].base] == f(vs[k])
  {
    KeyedSpec(vs, f, |vs|);
    var m := Keyed(vs, f, |vs|);
    var k' :| 0 <= k' < |vs| && vs[k'].base == vs[k].base && m[vs[k].base] == f(vs[k']) &&
              forall j :: k' < j < |vs| ==> vs[j].base != vs[k].base;
    assert k' == k;
  }

  // ---------------------------------------------------------------------------
  // `reconstruct_hierarchy`

  /** The derived list recorded for an address, empty when the map has none. */
  function DerivedEntry(inh: map<nat, seq<nat>>, a: nat): (ds: seq<nat>)
    ensures a !in inh ==> ds == []
    ensures a in inh ==> ds == inh[a]
  {
    if a in inh then inh[a] else []
  }

  /** The class recorded for a table: named after its address, with its functions, no
      base classes, and the tables the inheritance map says extend it. */
  function ClassOf(inh: map<nat, seq<nat>>): TableValue -> ClassInfo
  {
    (v: TableValue) => ClassInfo(v.base, ClassName(v.base), v.functions, [], DerivedEntry(inh, v.base))
  }

  /** The classes `reconstruct_hierarchy` records for a list of tables. */
  function Hierarchy(vs: seq<TableValue>): map<nat, ClassInfo>
  {
    Keyed(vs, ClassOf(Inheritance(vs)), |vs|)
  }

  /** `reconstruct_hierarchy`: analyses inheritance, then adds one class per table. */
  method ReconstructHierarchy(vts: seq<VTable>) returns (h: ClassHierarchy)
    ensures fresh(h) && h.Valid()
    ensures h.classes == Hierarchy(Values(vts))
  {
    ghost var vs := Values(vts);
    var inh := AnalyzeInheritance(vts);
    h := AddClasses(vts, vs, inh);
  }

  /** The class loop of `reconstruct_hierarchy`: one class per table, in order. */
  method AddClasses(vts: seq<VTable>, ghost vs: seq<TableValue>, inh: map<nat, seq<nat>>) returns (h: ClassHierarchy)
    requires |vs| == |vts| && forall k :: 0 <= k < |vts| ==> vts[k].Value() == vs[k]
    ensures fresh(h) && h.Valid()
    ensures h.classes == Keyed(vs, ClassOf(inh), |vs|)
  {
    h := new ClassHierarchy();
    for i := 0 to |vts|
      invariant h.Valid()
      invariant h.classes == Keyed(vs, ClassOf(inh), i)
    {
      var v := vts[i];
      assert v.Value() == vs[i];
      AddClassOf(h, v, vs, i, inh);
    }
  }

  /** One step of `reconstruct_hierarchy`: files the class of table `i`. */
  method AddClassOf(h: ClassHierarchy, v: VTable, ghost vs: seq<TableValue>, ghost i: nat, inh: map<nat, seq<nat>>)
    requires h.Valid() && i < |vs| && vs[i] == v.Value() && h.classes == Keyed(vs, ClassOf(inh), i)
    modifies h
    ensures h.Valid() && h.classes == Keyed(vs, ClassOf(inh), i + 1)
  {
    var address := v.baseAddress;
    var estimated := v.EstimatedClassName();
    var name := if estimated.Some? then estimated.value else "UnknownClass_" + HexUpper(address);
    var derived := if address in inh then inh[address] else [];
    var c := ClassInfo(address, name, v.functions, [], derived);
    ghost var before := h.classes;
    assert c == ClassOf(inh)(vs[i]);
    h.AddClass(c);
    KeyedStep(vs, ClassOf(inh), i, before, c, h.classes);
  }

  /** There is a class exactly for each table address; each is filed under its own
      address, named `Class_<HEX>`, has no base classes, and carries the functions and
      the inheritance entry of the last table at that address. */
  lemma HierarchySpec(vs: seq<TableValue>)
    ensures forall a :: a in Hierarchy(vs) <==> exists k :: 0 <= k < |vs| && vs[k].base == a
    ensures forall a :: a in Hierarchy(vs) ==>
              var c := Hierarchy(vs)[a];
              c.vtableAddress == a && c.name == ClassName(a) && c.baseClasses == [] &&
              c.derivedClasses == DerivedEntry(Inheritance(vs), a) &&
              exists k :: 0 <= k < |vs| && vs[k].base == a && c.functions == vs[k].functions &&
                          forall j :: k < j < |vs| ==> vs[j].base != a
  {
    KeyedSpec(vs, ClassOf(Inheritance(vs)), |vs|);
  }

  /** With distinct addresses, table `k`'s class lists exactly the other tables that
      extend it, and holds its functions. */
  lemma HierarchyDistinct(vs: seq<TableValue>, k: nat)
    requires DistinctBases(vs) && k < |vs|
    ensures vs[k].base in Hierarchy(vs)
    ensures Hierarchy(vs)[vs[k].base].functions == vs[k].functions
    ensures Hierarchy(vs)[vs[k].base].derivedClasses == DerivedOf(vs[k], vs)
  {
    KeyedDistinct(vs, ClassOf(Inheritance(vs)), k);
    InheritanceSpec(vs);
  }

  /** Since no class is ever given a base class, every reconstructed class is a root. */
  lemma EveryClassIsRoot(vs: seq<TableValue>, h: ClassHierarchy)
    requires h.classes == Hierarchy(vs)
    ensures h.FindRootClasses() == h.AllClasses()
  {
    HierarchySpec(vs);
  }

  /** With distinct addresses, table `k`'s class is a leaf exactly when no other table
      extends it. */
  lemma LeafIffNotExtended(vs: seq<TableValue>, k: nat, h: ClassHierarchy)
    requires DistinctBases(vs) && k < |vs| && h.classes == Hierarchy(vs)
    ensures vs[k].base in h.classes
    ensures h.classes[vs[k].base] in h.FindLeafClasses() <==>
            forall j :: 0 <= j < |vs| && vs[j].base != vs[k].base ==> !Derived(vs[k].functions, vs[j].functions)
  {
    HierarchyDistinct(vs, k);
    var ds := DerivedOf(vs[k], vs);
    if ds != [] {
      DerivedOfSpec(vs[k], vs, ds[0]);
    } else {
      forall j | 0 <= j < |vs| && vs[j].base != vs[k].base
        ensures !Derived(vs[k].functions, vs[j].functions)
      {
        DerivedOfSpec(vs[k], vs, vs[j].base);
      }
    }
  }

  /** Two tables at different addresses with the same function addresses each extend the
      other, so each class lists the other as derived. */
  lemma IdenticalTablesDeriveEachOther(vs: seq<TableValue>, i: nat, j: nat)
    requires i < |vs| && j < |vs| && vs[i].base != vs[j].base
    requires Addresses(vs[i].functions) == Addresses(vs[j].functions)
    ensures vs[j].base in DerivedOf(vs[i], vs) && vs[i].base in DerivedOf(vs[j], vs)
  {
    var a, b := vs[i].functions, vs[j].functions;
    assert forall k :: 0 <= k < |a| ==> a[k].address == Addresses(a)[k] == Addresses(b)[k] == b[k].address;
    assert Derived(a, b) && Derived(b, a);
    DerivedOfSpec(vs[i], vs, vs[j].base);
    DerivedOfSpec(vs[j], vs, vs[i].base);
  }

  // ---------------------------------------------------------------------------
  // `find_shared_functions`

  /** The addresses listed under a function, empty when there are none. */
  function Listed(m: map<nat, seq<nat>>, a: nat): seq<nat>
  {
    if a in m then m[a] else []
  }

  /** One `entry(..).or_insert_with(Vec::new).push(..)`. */
  function Push(m: map<nat, seq<nat>>, a: nat, b: nat): map<nat, seq<nat>>
  {
    m[a := Listed(m, a) + [b]]
  }

  /** The map after pushing table `base` once per function in `fs`. */
  function Record(m: map<nat, seq<nat>>, fs: seq<VirtualFunction>, base: nat): map<nat, seq<nat>>
    decreases |fs|
  {
    if fs == [] then m else Record(Push(m, fs[0].address, base), fs[1..], base)
  }

  /** The map after recording every table of `vs`, in order. */
  function Gather(m: map<nat, seq<nat>>, vs: seq<TableValue>): map<nat, seq<nat>>
    decreases |vs|
  {
    if vs == [] then m else Gather(Record(m, vs[0].functions, vs[0].base), vs[1..])
  }

  /** Only the functions listed more than once. */
  function SharedOnly(m: map<nat, seq<nat>>): (r: map<nat, seq<nat>>)
    ensures forall a :: a in r <==> a in m && |m[a]| > 1
    ensures forall a :: a in r ==> r[a] == m[a]
  {
    map a | a in m && |m[a]| > 1 :: m[a]
  }

  function SharedFunctions(vs: seq<TableValue>): map<nat, seq<nat>>
  {
    SharedOnly(Gather(map[], vs))
  }

  /** How many slots of `fs` hold address `a`. */
  function CountAddress(fs: seq<VirtualFunction>, a: nat): (n: nat)
    ensures n <= |fs|
  {
    if fs == [] then 0 else (if fs[0].address == a then 1 else 0) + CountAddress(fs[1..], a)
  }

  /** `n` copies of `b`. */
  function Repeat(b: nat, n: nat): (r: seq<nat>)
    ensures |r| == n && forall k :: 0 <= k < n ==> r[k] == b
  {
    if n == 0 then [] else [b] + Repeat(b, n - 1)
  }

  /** The reference definition: every table's address once per slot holding `a`, in
      table order. */
  function Occurrences(vs: seq<TableValue>, a: nat): seq<nat>
  {
    if vs == [] then [] else Repeat(vs[0].base, CountAddress(vs[0].functions, a)) + Occurrences(vs[1..], a)
  }

  lemma {:induction false} RecordSpec(m: map<nat, seq<nat>>, fs: seq<VirtualFunction>, base: nat, a: nat)
    decreases |fs|
    ensures a in Record(m, fs, base) <==> a in m || CountAddress(fs, a) > 0
    ensures Listed(Record(m, fs, base), a) == Listed(m, a) + Repeat(base, CountAddress(fs, a))
  {
    if fs != [] {
      var m' := Push(m, fs[0].address, base);
      RecordSpec(m', fs[1..], base, a);
      if fs[0].address == a {
        assert Repeat(base, CountAddress(fs, a)) == [base] + Repeat(base, CountAddress(fs[1..], a));
        assert Listed(m, a) + [base] + Repeat(base, CountAddress(fs[1..], a))
            == Listed(m, a) + ([base] + Repeat(base, CountAddress(fs[1..], a)));
      }
    }
  }

  lemma {:induction false} GatherSpec(m: map<nat, seq<nat>>, vs: seq<TableValue>, a: nat)
    decreases |vs|
    ensures a in Gather(m, vs) <==> a in m || Occurrences(vs, a) != []
    ensures Listed(Gather(m, vs), a) == Listed(m, a) + Occurrences(vs, a)
  {
    if vs != [] {
      var v, rest := vs[0], vs[1..];
      var m' := Record(m, v.functions, v.base);
      RecordSpec(m, v.functions, v.base, a);
      GatherSpec(m', rest, a);
      var rep := Repeat(v.base, CountAddress(v.functions, a));
      var occ := Occurrences(rest, a);
      assert Gather(m, vs) == Gather(m', rest);
      assert Occurrences(vs, a) == rep + occ;
      assert Listed(m, a) + rep + occ == Listed(m, a) + (rep + occ);
    }
  }

  /** A table's address appears in the occurrence list of `a` exactly when that table
      has `a` in a slot. */
  lemma {:induction false} OccurrencesSpec(vs: seq<TableValue>, a: nat, b: nat)
    ensures b in Occurrences(vs, a) <==> exists k :: 0 <= k < |vs| && vs[k].base == b && HasAddress(vs[k].functions, a)
  {
    if vs != [] {
      OccurrencesSpec(vs[1..], a, b);
      CountPositive(vs[0].functions, a);
      var rep := Repeat(vs[0].base, CountAddress(vs[0].functions, a));
      assert b in rep <==> b == vs[0].base && CountAddress(vs[0].functions, a) > 0;
      if exists k :: 0 <= k < |vs| && vs[k].base == b && HasAddress(vs[k].functions, a) {
        var k :| 0 <= k < |vs| && vs[k].base == b && HasAddress(vs[k].functions, a);
        if k > 0 {
          assert vs[1..][k - 1] == vs[k];
        }
      }
      if b in Occurrences(vs[1..], a) {
        var k :| 0 <= k < |vs[1..]| && vs[1..][k].base == b && HasAddress(vs[1..][k].functions, a);
        assert vs[k + 1] == vs[1..][k];
      }
    }
  }

  lemma {:induction false} CountPositive(fs: seq<VirtualFunction>, a: nat)
    ensures CountAddress(fs, a) > 0 <==> HasAddress(fs, a)
  {
    if fs != [] {
      CountPositive(fs[1..], a);
    }
  }

  /** A function is reported exactly when it fills more than one slot across the tables,
      and it is reported with every table holding it, once per slot, in table order. */
  lemma SharedFunctionsSpec(vs: seq<TableValue>, a: nat)
    ensures a in SharedFunctions(vs) <==> |Occurrences(vs, a)| > 1
    ensures a in SharedFunctions(vs) ==> SharedFunctions(vs)[a] == Occurrences(vs, a)
  {
    GatherSpec(map[], vs, a);
  }

  /** The inner loop of `find_shared_functions`: one table's slots. */
  method RecordTable(m: map<nat, seq<nat>>, v: VTable) returns (r: map<nat, seq<nat>>)
    ensures r == Record(m, v.functions, v.baseAddress)
  {
    r := m;
    var fs := v.functions;
    for j := 0 to |fs|
      invariant Record(r, fs[j..], v.baseAddress) == Record(m, fs, v.baseAddress)
    {
      assert fs[j..][0] == fs[j] && fs[j..][1..] == fs[j + 1..];
      r := r[fs[j].address := (if fs[j].address in r then r[fs[j].address] else []) + [v.baseAddress]];
    }
    assert fs[|fs|..] == [];
  }

  /** `find_shared_functions`: collects, per function address, the tables holding it,
      then keeps the ones held more than once. */
  method FindSharedFunctions(vts: seq<VTable>) returns (shared: map<nat, seq<nat>>)
    ensures shared == SharedFunctions(Values(vts))
  {
    ghost var vs := Values(vts);
    var m: map<nat, seq<nat>> := map[];
    assert vs[0..] == vs;
    for i := 0 to |vts|
      invariant Gather(m, vs[i..]) == Gather(map[], vs)
    {
      assert vs[i..][0] == vts[i].Value() && vs[i..][1..] == vs[i + 1..];
      m := RecordTable(m, vts[i]);
    }
    assert vs[|vts|..] == [];
    shared := map a | a in m && |m[a]| > 1 :: m[a];
  }

  /** One table holding the same function twice is enough to report it. */
  lemma SharedExample()
    ensures var v := TableValue(0x1000, [VirtualFunction(0x2000, 0), VirtualFunction(0x2000, 1)], None);
            SharedFunctions([v]) == map[0x2000 := [0x1000, 0x1000]]
  {
    var v := TableValue(0x1000, [VirtualFunction(0x2000, 0), VirtualFunction(0x2000, 1)], None);
    var m1: map<nat, seq<nat>> := map[0x2000 := [0x1000]];
    var e: map<nat, seq<nat>> := map[];
    assert Listed(e, 0x2000) == [] && [] + [0x1000] == [0x1000];
    assert Push(e, 0x2000, 0x1000) == m1;
    assert Listed(m1, 0x2000) == [0x1000] && [0x1000] + [0x1000] == [0x1000, 0x1000];
    assert Push(m1, 0x2000, 0x1000) == map[0x2000 := [0x1000, 0x1000]];
    assert v.functions[1..][1..] == [];
    assert Record(map[], v.functions, v.base) == map[0x2000 := [0x1000, 0x1000]];
    assert Gather(map[], [v]) == Gather(map[0x2000 := [0x1000, 0x1000]], []);
  }

  // ---------------------------------------------------------------------------
  // `estimate_object_sizes`

  /** One pointer for the table and eight bytes per function. */
  function ObjectSize(v: TableValue): nat
  {
    PointerSize + 8 * |v.functions|
  }

  /** `estimate_object_sizes`: one estimate per address, a later table winning. */
  function EstimateObjectSizes(vs: seq<TableValue>): map<nat, nat>
  {
    Keyed(vs, ObjectSize, |vs|)
  }

  /** There is an estimate exactly for each table address, and it is one pointer plus
      eight bytes per function of the last table at that address. */
  lemma EstimateObjectSizesSpec(vs: seq<TableValue>)
    ensures forall a :: a in EstimateObjectSizes(vs) <==> exists k :: 0 <= k < |vs| && vs[k].base == a
    ensures forall a :: a in EstimateObjectSizes(vs) ==>
              exists k :: 0 <= k < |vs| && vs[k].base == a &&
                          EstimateObjectSizes(vs)[a] == PointerSize + 8 * |vs[k].functions| &&
                          forall j :: k < j < |vs| ==> vs[j].base != a
  {
    KeyedSpec(vs, ObjectSize, |vs|);
  }

  /** For a table with functions the estimate is the table's own recorded size. */
  lemma ObjectSizeIsTableSize(v: VTable)
    requires v.Valid() && v.functions != []
    ensures ObjectSize(v.Value()) == v.size
  {
  }
}
