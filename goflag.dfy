/** The part of Go's `flag` package the flags use: a flag set is a registry from names to
    the storage each flag is bound to. Parsing itself is not modelled here. */
module GoFlag {
  import opened Strconv
  import opened UintSlices

  /** Go's `*int`: the storage `FlagSet.Int`/`IntVar` bind a flag to. */
  class IntCell {
    var v: Int64

    constructor (v0: Int64)
      ensures v == v0
    {
      v := v0;
    }
  }

  /** Go's `*uint`. */
  class UintCell {
    var v: Uint64

    constructor (v0: Uint64)
      ensures v == v0
    {
      v := v0;
    }
  }

  /** The `flag.Value` a name is registered with, by kind of storage. */
  datatype Value = IntValue(ip: IntCell) | UintValue(up: UintCell) | SliceValue(sp: UintSlice) {
    function Ref(): object {
      match this
      case IntValue(p) => p
      case UintValue(p) => p
      case SliceValue(s) => s
    }

    /** `Value.String()`: the decimal numeral of an int or uint, the Go syntax of a slice. */
    function String(): string
      reads Ref()
    {
      match this
      case IntValue(p) => FormatInt(p.v)
      case UintValue(p) => FormatUint(p.v)
      case SliceValue(s) => s.String()
    }
  }

  /** `flag.FlagSet`, reduced to its registry of defined flags. */
  class FlagSet {
    var formal: map<string, Value>

    /** `flag.NewFlagSet`: nothing registered yet. */
    constructor ()
      ensures formal == map[]
    {
      formal := map[];
    }

    /** The storage objects of all registered flags. */
    function Refs(): set<object>
      reads this
    {
      set v | v in formal.Values :: v.Ref()
    }

    /** `Var(value, name, usage)`; Go panics when the name is already defined. */
    method Var(value: Value, name: string)
      requires name !in formal
      modifies this
      ensures formal == old(formal)[name := value]
    {
      formal := formal[name := value];
    }

    /** `IntVar(p, name, value, usage)`: stores the default in `*p` and registers `p`. */
    method IntVar(p: IntCell, name: string, value: Int64)
      requires name !in formal
      modifies this, p
      ensures p.v == value && formal == old(formal)[name := IntValue(p)]
    {
      p.v := value;
      Var(IntValue(p), name);
    }

    /** `Int(name, value, usage)`: registers fresh storage holding the default. */
    method Int(name: string, value: Int64) returns (p: IntCell)
      requires name !in formal
      modifies this
      ensures fresh(p) && p.v == value && formal == old(formal)[name := IntValue(p)]
    {
      p := new IntCell(value);
      Var(IntValue(p), name);
    }

    /** `UintVar(p, name, value, usage)`. */
    method UintVar(p: UintCell, name: string, value: Uint64)
      requires name !in formal
      modifies this, p
      ensures p.v == value && formal == old(formal)[name := UintValue(p)]
    {
      p.v := value;
      Var(UintValue(p), name);
    }

    /** `Uint(name, value, usage)`. */
    method Uint(name: string, value: Uint64) returns (p: UintCell)
      requires name !in formal
      modifies this
      ensures fresh(p) && p.v == value && formal == old(formal)[name := UintValue(p)]
    {
      p := new UintCell(value);
      Var(UintValue(p), name);
    }
  }

  /** Every name of a flag can be registered: the names are distinct and none is defined
      yet (Go's `FlagSet.Var` panics on a redefinition). */
  predicate CanRegister(names: seq<string>, fs: FlagSet)
    reads fs
  {
    && (forall i, j :: 0 <= i < j < |names| ==> names[i] != names[j])
    && (forall i :: 0 <= i < |names| ==> names[i] !in fs.formal)
  }

  /** Each of `names` bound to the slice at the same position, later names last. */
  ghost function Bindings(names: seq<string>, slices: seq<UintSlice>): map<string, Value>
    requires |names| == |slices|
  {
    if names == [] then map[]
    else
      var k := |names| - 1;
      Bindings(names[..k], slices[..k])[names[k] := SliceValue(slices[k])]
  }

  /** The names bound are exactly `names`. */
  lemma {:induction false} BindingsKeys(names: seq<string>, slices: seq<UintSlice>)
    requires |names| == |slices|
    ensures Bindings(names, slices).Keys == set n | n in names
  {
    if names != [] {
      var k := |names| - 1;
      BindingsKeys(names[..k], slices[..k]);
      assert names == names[..k] + [names[k]];
    }
  }

  /** With distinct names, each name is bound to the slice at its own position. */
  lemma {:induction false} BindingsAt(names: seq<string>, slices: seq<UintSlice>, i: nat)
    requires |names| == |slices| && i < |names|
    requires forall a, b :: 0 <= a < b < |names| ==> names[a] != names[b]
    ensures names[i] in Bindings(names, slices)
    ensures Bindings(names, slices)[names[i]] == SliceValue(slices[i])
  {
    var k := |names| - 1;
    if i < k {
      BindingsAt(names[..k], slices[..k], i);
    }
  }

  /** The next name is not yet bound when the names are distinct and new to `base`. */
  lemma NextUnbound(base: map<string, Value>, names: seq<string>, slices: seq<UintSlice>)
    requires |slices| < |names|
    requires forall a, b :: 0 <= a < b < |names| ==> names[a] != names[b]
    requires forall a :: 0 <= a < |names| ==> names[a] !in base
    ensures names[|slices|] !in base + Bindings(names[..|slices|], slices)
  {
    BindingsKeys(names[..|slices|], slices);
  }

  /** Binding one more name extends the bindings by that name. */
  lemma BindStep(base: map<string, Value>, names: seq<string>, slices: seq<UintSlice>, v: UintSlice)
    requires |slices| < |names|
    ensures base + Bindings(names[..|slices| + 1], slices + [v])
         == (base + Bindings(names[..|slices|], slices))[names[|slices|] := SliceValue(v)]
  {
    var i := |slices|;
    assert names[..i + 1][..i] == names[..i] && (slices + [v])[..i] == slices;
  }

  /** Appending a slice not yet among distinct slices keeps them distinct. */
  lemma DistinctAppend(slices: seq<UintSlice>, v: UintSlice)
    requires forall a, b :: 0 <= a < b < |slices| ==> slices[a] != slices[b]
    requires v !in slices
    ensures forall a, b :: 0 <= a < b < |slices + [v]| ==> (slices + [v])[a] != (slices + [v])[b]
  {
  }

  /** What the bindings say name by name: each name is bound to the slice at its own
      position, for distinct names. */
  lemma BoundAt(base: map<string, Value>, names: seq<string>, slices: seq<UintSlice>)
    requires |names| == |slices|
    requires forall a, b :: 0 <= a < b < |names| ==> names[a] != names[b]
    ensures forall k :: 0 <= k < |names| ==>
      names[k] in base + Bindings(names, slices)
      && (base + Bindings(names, slices))[names[k]] == SliceValue(slices[k])
  {
    forall k | 0 <= k < |names|
      ensures names[k] in base + Bindings(names, slices)
      ensures (base + Bindings(names, slices))[names[k]] == SliceValue(slices[k])
    {
      BindingsAt(names, slices, k);
    }
  }

  /** The bindings of distinct names new to `base`, to distinct slices, seen name by name. */
  lemma BoundNames(base: map<string, Value>, names: seq<string>, slices: seq<UintSlice>)
    requires |names| == |slices|
    requires forall a, b :: 0 <= a < b < |names| ==> names[a] != names[b]
    requires forall a :: 0 <= a < |names| ==> names[a] !in base
    requires forall a, b :: 0 <= a < b < |slices| ==> slices[a] != slices[b]
    ensures (base + Bindings(names, slices)).Keys == base.Keys + set n | n in names
    ensures forall n :: n in base ==>
      n in base + Bindings(names, slices) && (base + Bindings(names, slices))[n] == base[n]
    ensures forall n :: n in names ==>
      && n in base + Bindings(names, slices)
      && (base + Bindings(names, slices))[n].SliceValue?
      && (base + Bindings(names, slices))[n].sp in slices
    ensures forall i, j :: 0 <= i < j < |names| ==>
      (base + Bindings(names, slices))[names[i]].sp != (base + Bindings(names, slices))[names[j]].sp
    ensures names != [] ==>
      (base + Bindings(names, slices))[names[|names| - 1]] == SliceValue(slices[|slices| - 1])
  {
    BindingsKeys(names, slices);
    BoundAt(base, names, slices);
    forall n | n in names
      ensures n in base + Bindings(names, slices)
      ensures (base + Bindings(names, slices))[n].SliceValue?
      ensures (base + Bindings(names, slices))[n].sp in slices
    {
      var k :| 0 <= k < |names| && names[k] == n;
    }
  }

  /** A registered value's storage is among the set's storage objects. */
  lemma RefOfRegistered(fs: FlagSet, name: string)
    requires name in fs.formal
    ensures fs.formal[name].Ref() in fs.Refs()
  {
    assert fs.formal[name] in fs.formal.Values;
  }
}

/** The read side of a command's context: its flag set and those of its ancestors. */
module Contexts {
  import opened Wrappers
  import opened GoFlag

  /** A context, given by its lineage: its own flag set first, then each parent's. */
  datatype Context = Context(lineage: seq<FlagSet>)

  /** The storage objects of every flag set in a lineage. */
  function RefsOf(lineage: seq<FlagSet>): set<object>
    reads lineage
  {
    if lineage == [] then {} else lineage[0].Refs() + RefsOf(lineage[1..])
  }

  /** `lookupFlagSet(name, ctx)`: the first flag set along the lineage that defines `name`. */
  function LookupFlagSet(name: string, lineage: seq<FlagSet>): (r: Option<FlagSet>)
    reads lineage
    ensures r.None? <==> forall i :: 0 <= i < |lineage| ==> name !in lineage[i].formal
    ensures r.Some? ==>
      (exists i :: 0 <= i < |lineage| && lineage[i] == r.value
                   && name in lineage[i].formal && forall j :: 0 <= j < i ==> name !in lineage[j].formal)
  {
    if lineage == [] then None
    else if name in lineage[0].formal then Some(lineage[0])
    else
      var r := LookupFlagSet(name, lineage[1..]);
      if r.Some? then
        var i :| 0 <= i < |lineage[1..]| && lineage[1..][i] == r.value
          && name in lineage[1..][i].formal && forall j :: 0 <= j < i ==> name !in lineage[1..][j].formal;
        assert lineage[i + 1] == r.value;
        r
      else
        r
  }

  /** The storage of the flag set found for a name lies within the lineage's frame. */
  lemma {:induction false} FoundRefsInFrame(name: string, lineage: seq<FlagSet>)
    requires LookupFlagSet(name, lineage).Some?
    ensures LookupFlagSet(name, lineage).value in lineage
    ensures LookupFlagSet(name, lineage).value.Refs() <= RefsOf(lineage)
  {
    if name !in lineage[0].formal {
      FoundRefsInFrame(name, lineage[1..]);
    }
  }
}
