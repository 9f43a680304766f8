/** `UintSliceFlag` (flag_uint_slice.go): a `[]uint` flag whose value may come from a
    comma-separated environment/file text, and the `Context.UintSlice` accessor. */
module UintSliceFlags {
  import opened Wrappers
  import opened Strings
  import opened Strconv
  import opened Sources
  import opened UintSlices
  import opened GoFlag
  import opened Contexts

  /** Each piece with its surrounding white space removed. */
  function TrimEach(parts: seq<string>): (r: seq<string>)
    ensures |r| == |parts|
    ensures forall k :: 0 <= k < |parts| ==> r[k] == TrimSpace(parts[k])
  {
    if parts == [] then [] else [TrimSpace(parts[0])] + TrimEach(parts[1..])
  }

  /** The values the environment/file step sets, one per comma-separated piece. */
  function EnvValues(text: string): (r: seq<string>)
    ensures |r| == |Split(text, ',')| >= 1
  {
    TrimEach(Split(text, ','))
  }

  /** The outcome of the environment/file step: a fresh, unset slice given each value
      in turn, up to the first one it refuses. */
  function EnvOutcome(text: string): SetOutcome {
    SetEach([], false, EnvValues(text))
  }

  /** The slice `Set` with no error reached on a fresh slice is the same as on a set empty
      one: the first `Set` empties the slice anyway. */
  lemma FreshSetEach(values: seq<string>)
    requires values != []
    ensures SetEach([], false, values) == SetEach([], true, values)
  {
    FirstSetDiscardsDefaults([], values[0]);
  }

  /** When every comma-separated piece is a base-10 `uint` once trimmed, the environment
      step yields their numbers in order. */
  lemma EnvNumbers(text: string)
    requires forall k :: 0 <= k < |EnvValues(text)| ==> ParseUint(EnvValues(text)[k]).Ok?
    ensures EnvOutcome(text).err == None
    ensures |EnvOutcome(text).slice| == |EnvValues(text)|
    ensures forall k :: 0 <= k < |EnvValues(text)| ==>
      EnvOutcome(text).slice[k] == ParseUint(EnvValues(text)[k]).value
  {
    FreshSetEach(EnvValues(text));
    SetEachNumbers([], EnvValues(text));
    assert [] + Parsed(EnvValues(text)) == Parsed(EnvValues(text));
  }

  /** A piece that is neither marked nor a number makes the environment step fail. */
  lemma EnvRefuses(text: string, k: nat)
    requires k < |EnvValues(text)|
    requires !HasPrefix(EnvValues(text)[k], SlPfx) && ParseUint(EnvValues(text)[k]).Err?
    ensures EnvOutcome(text).err.Some?
  {
    SetEachRefuses([], false, EnvValues(text), k);
  }

  /** `lookupUintSlice(name, set)`: the elements of the slice the name is bound to, or
      `None` (Go's nil) when the name is not defined. Go's type assertion panics when the
      name is bound to anything but a `*UintSlice`, hence the precondition. */
  function LookupUintSlice(name: string, fs: FlagSet): (r: Option<seq<Uint64>>)
    requires name in fs.formal ==> fs.formal[name].SliceValue?
    reads fs, fs.Refs()
    ensures r.None? <==> name !in fs.formal
    ensures r.Some? ==> r.value == fs.formal[name].sp.slice
  {
    if name !in fs.formal then None
    else
      RefOfRegistered(fs, name);
      Some(fs.formal[name].sp.Value())
  }

  /** `Context.UintSlice(name)`: the slice of `name` in the first flag set along the
      lineage that defines it, and `None` when no flag set defines it. */
  function ContextUintSlice(c: Context, name: string): (r: Option<seq<Uint64>>)
    requires LookupFlagSet(name, c.lineage).Some? ==>
      LookupFlagSet(name, c.lineage).value.formal[name].SliceValue?
    reads c.lineage, RefsOf(c.lineage)
    ensures r.None? <==> forall i :: 0 <= i < |c.lineage| ==> name !in c.lineage[i].formal
    ensures forall i ::
              0 <= i < |c.lineage| && name in c.lineage[i].formal
              && (forall j :: 0 <= j < i ==> name !in c.lineage[j].formal)
              ==> r == Some(c.lineage[i].formal[name].sp.slice)
  {
    match LookupFlagSet(name, c.lineage)
    case None => None
    case Some(fs) =>
      FoundRefsInFrame(name, c.lineage);
      LookupUintSlice(name, fs)
  }

  /** The loop of `Apply` as written, from the flag's value `start`: the guard
      `f.Value != nil` holds on every pass, so each name is bound to a new empty slice,
      and the last of them is returned as the flag's value. */
  method BindFreshEach(fs: FlagSet, names: seq<string>, start: UintSlice)
    returns (v: UintSlice, ghost bound: seq<UintSlice>)
    requires CanRegister(names, fs)
    modifies fs
    ensures |bound| == |names| && fs.formal == old(fs.formal) + Bindings(names, bound)
    ensures forall s :: s in bound ==> fresh(s) && s.slice == [] && !s.hasBeenSet
    ensures forall k, l :: 0 <= k < l < |bound| ==> bound[k] != bound[l]
    ensures names == [] ==> v == start
    ensures names != [] ==> v == bound[|bound| - 1]
  {
    var u: UintSlice? := start;
    bound := [];
    var i := 0;
    while i < |names|
      invariant 0 <= i <= |names| && |bound| == i
      invariant u != null
      invariant i == 0 ==> u == start
      invariant i > 0 ==> u == bound[i - 1]
      invariant fs.formal == old(fs.formal) + Bindings(names[..i], bound)
      invariant forall s :: s in bound ==> fresh(s) && s.slice == [] && !s.hasBeenSet
      invariant forall k, l :: 0 <= k < l < |bound| ==> bound[k] != bound[l]
    {
      if u != null {
        u := new UintSlice([]);
      }
      NextUnbound(old(fs.formal), names, bound);
      BindStep(old(fs.formal), names, bound, u);
      DistinctAppend(bound, u);
      fs.Var(SliceValue(u), names[i]);
      bound := bound + [u];
      i := i + 1;
    }
    assert names[..|names|] == names;
    v := u;
  }

  class UintSliceFlag {
    const name: string
    const aliases: seq<string>
    var value: UintSlice?
    var hasBeenSet: bool

    /** A flag literal `&UintSliceFlag{Name: ..., Aliases: ..., Value: ...}`. */
    constructor (name: string, aliases: seq<string>, value: UintSlice?)
      ensures this.name == name && this.aliases == aliases && this.value == value
      ensures !hasBeenSet
    {
      this.name := name;
      this.aliases := aliases;
      this.value := value;
      hasBeenSet := false;
    }

    /** `Names()`: the name, then the aliases. */
    function Names(): (r: seq<string>)
      ensures |r| == |aliases| + 1 && r[0] == name && r[1..] == aliases
    {
      [name] + aliases
    }

    /** `IsSet()`: whether the environment or a file has set the flag. */
    predicate IsSet()
      reads this
    {
      hasBeenSet
    }

    /** `TakesValue()`: a slice flag always takes a value. */
    predicate TakesValue()
      ensures TakesValue()
    {
      true
    }

    /** The environment/file step of `Apply`: supplied text replaces the value with a fresh
        slice that is given each comma-separated piece, trimmed, in turn. The first piece it
        refuses ends the step with an error naming the whole text; the partly filled slice
        stays the flag's value and the flag does not count as set. */
    method ApplySource(source: Option<string>) returns (err: Option<string>)
      modifies this
      ensures !Supplied(source) ==> err == None && value == old(value) && hasBeenSet == old(hasBeenSet)
      ensures Supplied(source) ==>
        var o := EnvOutcome(source.value);
        && value != null && fresh(value)
        && value.slice == o.slice && value.hasBeenSet
        && (o.err.None? ==> err == None && hasBeenSet)
        && (o.err.Some? ==>
              err == Some(ConversionMessage(source.value, "uint slice", name, o.err.value))
              && hasBeenSet == old(hasBeenSet))
    {
      err := None;
      if source.Some? && source.value != "" {
        var text := source.value;
        var v := new UintSlice([]);
        value := v;
        var pieces := Split(text, ',');
        ghost var values := EnvValues(text);
        var i := 0;
        while i < |pieces|
          invariant 0 <= i <= |pieces|
          invariant value == v && fresh(v)
          invariant hasBeenSet == old(hasBeenSet)
          invariant i > 0 ==> v.hasBeenSet
          invariant EnvOutcome(text) == SetEach(v.slice, v.hasBeenSet, values[i..])
        {
          assert values[i..][0] == TrimSpace(pieces[i]) && values[i..][1..] == values[i + 1..];
          var e := v.Set(TrimSpace(pieces[i]));
          if e.Some? {
            return Some(ConversionMessage(text, "uint slice", name, e.value));
          }
          i := i + 1;
        }
        hasBeenSet := true;
      }
    }

    /** The registration loop of `Apply` as written: for each name, the flag's value is
        replaced by a fresh empty slice (the guard holds as soon as there is a value), and
        the name is bound to it. */
    method RegisterFresh(fs: FlagSet)
      requires value != null
      requires CanRegister(Names(), fs)
      modifies this, fs
      ensures hasBeenSet == old(hasBeenSet)
      ensures value != null && fresh(value) && value.slice == [] && !value.hasBeenSet
      ensures fs.formal.Keys == old(fs.formal).Keys + set n | n in Names()
      ensures forall n :: n in old(fs.formal) ==> n in fs.formal && fs.formal[n] == old(fs.formal[n])
      ensures forall n :: n in Names() ==>
        && n in fs.formal
        && fs.formal[n].SliceValue?
        && fresh(fs.formal[n].sp)
        && fs.formal[n].sp.slice == []
      ensures forall i, j :: 0 <= i < j < |Names()| ==> fs.formal[Names()[i]].sp != fs.formal[Names()[j]].sp
      ensures fs.formal[Names()[|Names()| - 1]] == SliceValue(value)
    {
      var v, bound := BindFreshEach(fs, Names(), value);
      value := v;
      BoundNames(old(fs.formal), Names(), bound);
    }

    /** The registration loop with the intended guard: a flag with no value gets one fresh
        empty slice, and every name is bound to the flag's value. */
    method RegisterValue(fs: FlagSet)
      requires CanRegister(Names(), fs)
      modifies this, fs
      ensures hasBeenSet == old(hasBeenSet) && value != null
      ensures old(value) != null ==> value == old(value)
      ensures old(value) == null ==> fresh(value) && value.slice == []
      ensures fs.formal.Keys == old(fs.formal).Keys + set n | n in Names()
      ensures forall n :: n in old(fs.formal) ==> n in fs.formal && fs.formal[n] == old(fs.formal[n])
      ensures forall n :: n in Names() ==> n in fs.formal && fs.formal[n] == SliceValue(value)
    {
      var names := Names();
      var v := value;
      var i := 0;
      while i < |names|
        modifies fs
        invariant 0 <= i <= |names|
        invariant CanRegister(names[i..], fs)
        invariant old(value) != null || i == 0 ==> v == old(value)
        invariant old(value) == null && i > 0 ==> v != null && fresh(v) && v.slice == []
        invariant forall n :: n in fs.formal <==> n in old(fs.formal) || n in names[..i]
        invariant forall n :: n in old(fs.formal) ==> n in fs.formal && fs.formal[n] == old(fs.formal[n])
        invariant forall k :: 0 <= k < i ==> v != null && names[k] in fs.formal && fs.formal[names[k]] == SliceValue(v)
      {
        if v == null {
          v := new UintSlice([]);
        }
        fs.Var(SliceValue(v), names[i]);
        i := i + 1;
      }
      value := v;
      assert names[..|names|] == names;
    }

    /** `Apply(set)` as the program writes it. After the environment/file step, each name
        in turn gets a fresh empty slice, which also becomes the flag's value, because the
        guard tests `f.Value != nil` where `f.Value == nil` is meant: every name ends up
        bound to an empty, unset slice and whatever the environment supplied is lost. Go
        panics when there is neither a value nor supplied text (the flag set formats the
        nil value), hence the first precondition. */
    method Apply(fs: FlagSet, source: Option<string>) returns (err: Option<string>)
      requires value != null || Supplied(source)
      requires CanRegister(Names(), fs)
      modifies this, fs
      ensures Supplied(source) && EnvOutcome(source.value).err.Some? ==>
        && err == Some(ConversionMessage(source.value, "uint slice", name,
                                         EnvOutcome(source.value).err.value))
        && hasBeenSet == old(hasBeenSet)
        && fs.formal == old(fs.formal)
      ensures !(Supplied(source) && EnvOutcome(source.value).err.Some?) ==> err == None
      ensures err == None ==> hasBeenSet == (old(hasBeenSet) || Supplied(source))
      ensures err == None ==> value != null && fresh(value) && value.slice == [] && !value.hasBeenSet
      ensures err == None ==> fs.formal.Keys == old(fs.formal).Keys + set n | n in Names()
      ensures err == None ==>
        forall n :: n in old(fs.formal) ==> n in fs.formal && fs.formal[n] == old(fs.formal[n])
      ensures err == None ==>
        forall n :: n in Names() ==>
          && n in fs.formal
          && fs.formal[n].SliceValue?
          && fresh(fs.formal[n].sp)
          && LookupUintSlice(n, fs) == Some([])
    ensures err == None ==>
      forall i, j :: 0 <= i < j < |Names()| ==> fs.formal[Names()[i]].sp != fs.formal[Names()[j]].sp
    ensures err == None ==> fs.formal[Names()[|Names()| - 1]] == SliceValue(value)
    ensures err.Some? ==>
      Supplied(source) && value != null && fresh(value) && value.slice == EnvOutcome(source.value).slice
    {
      err := ApplySource(source);
      if err.Some? {
        return;
      }
      RegisterFresh(fs);
      forall n | n in Names() ensures LookupUintSlice(n, fs) == Some([]) {
        assert n in fs.formal.Keys;
      }
    }

    /** `Apply(set)` with the guard it evidently intends, `f.Value == nil`: a flag with
        no value gets one fresh empty slice, and every name is bound to the flag's value,
        so what the environment supplied is what every name reads back. */
    method ApplyCorrected(fs: FlagSet, source: Option<string>) returns (err: Option<string>)
      requires CanRegister(Names(), fs)
      modifies this, fs
      ensures Supplied(source) && EnvOutcome(source.value).err.Some? ==>
        && err == Some(ConversionMessage(source.value, "uint slice", name,
                                         EnvOutcome(source.value).err.value))
        && hasBeenSet == old(hasBeenSet)
        && fs.formal == old(fs.formal)
      ensures !(Supplied(source) && EnvOutcome(source.value).err.Some?) ==> err == None
      ensures err == None ==> hasBeenSet == (old(hasBeenSet) || Supplied(source)) && value != null
      ensures err == None && Supplied(source) ==> value.slice == EnvOutcome(source.value).slice
      ensures err == None && !Supplied(source) && old(value) != null ==> value == old(value)
      ensures err == None && !Supplied(source) && old(value) == null ==>
        fresh(value) && value.slice == []
      ensures err == None ==> fs.formal.Keys == old(fs.formal).Keys + set n | n in Names()
      ensures err == None ==>
        forall n :: n in old(fs.formal) ==> n in fs.formal && fs.formal[n] == old(fs.formal[n])
      ensures err == None ==>
        forall n :: n in Names() ==>
          && n in fs.formal
          && fs.formal[n] == SliceValue(value)
          && LookupUintSlice(n, fs) == Some(value.slice)
    ensures err.Some? ==>
      Supplied(source) && value != null && fresh(value) && value.slice == EnvOutcome(source.value).slice
    {
      err := ApplySource(source);
      if err.Some? {
        return;
      }
      RegisterValue(fs);
      forall n | n in Names() ensures LookupUintSlice(n, fs) == Some(value.slice) {
        assert n in fs.formal.Keys;
      }
    }
  }

  /** The environment text "1" gives the one-element slice [1]. */
  lemma EnvOne()
    ensures EnvOutcome("1") == SetOutcome([1], None)
  {
    assert Split("1", ',') == ["1"] by {
      SplitNoSeparator("1", ',');
    }
    assert EnvValues("1") == ["1"] by {
      assert TrimSpace("1") == "1";
    }
    assert ParseUint("1") == Ok(1) by {
      assert FormatUint(1) == "1";
      ParseFormatUint(1);
    }
    EnvNumbers("1");
  }

  /** `Apply` as written on a flag "n" with defaults [5] and the environment text "1": the
      flag counts as set, yet the name reads back an empty slice. */
  method EnvValueLost() returns (isSet: bool, seen: Option<seq<Uint64>>)
    ensures isSet && seen == Some([])
  {
    var defaults := new UintSlice([5]);
    var flag := new UintSliceFlag("n", [], defaults);
    var fs := new FlagSet();
    EnvOne();
    var _ := flag.Apply(fs, Some("1"));
    isSet := flag.IsSet();
    seen := LookupUintSlice("n", fs);
  }

  /** The same flag and text under `ApplyCorrected`: the name reads back [1]. */
  method EnvValueKept() returns (isSet: bool, seen: Option<seq<Uint64>>)
    ensures isSet && seen == Some([1])
  {
    var defaults := new UintSlice([5]);
    var flag := new UintSliceFlag("n", [], defaults);
    var fs := new FlagSet();
    EnvOne();
    var _ := flag.ApplyCorrected(fs, Some("1"));
    isSet := flag.IsSet();
    seen := LookupUintSlice("n", fs);
  }
}
