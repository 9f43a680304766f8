/** `IntFlag` (flag_int.go): an `int` flag whose default may be overridden from the
    environment or a file, and the `Context.Int` accessor. */
module IntFlags {
  import opened Wrappers
  import opened Strconv
  import opened Sources
  import opened GoFlag
  import opened Contexts

  /** The environment/file step of `IntFlag.Apply`: text that is absent or empty changes
      nothing; otherwise it must be a base-10 `int64`, or the step fails with a message
      that names the text and the flag. */
  function ResolveInt(name: string, source: Option<string>): (r: Resolution<Int64>)
    ensures !Supplied(source) <==> r.Unchanged?
    ensures r.Resolved? <==> Supplied(source) && ParseInt(source.value).Ok?
    ensures r.Resolved? ==> r.v == ParseInt(source.value).value
    ensures r.Failed? ==>
      && r.message == ConversionMessage(source.value, "int", name, ParseInt(source.value).error.Message())
      && Strings.Contains(r.message, Strings.Quote(source.value))
      && Strings.Contains(r.message, name)
  {
    if !Supplied(source) then Unchanged
    else match ParseInt(source.value)
      case Ok(n) => Resolved(n)
      case Err(e) =>
        ConversionMessageMentions(source.value, "int", name, e.Message());
        Failed(ConversionMessage(source.value, "int", name, e.Message()))
  }

  /** Text written as `strconv.FormatInt` writes a number resolves to that number. */
  lemma ResolveIntFormatted(name: string, n: Int64)
    ensures ResolveInt(name, Some(FormatInt(n))) == Resolved(n)
  {
    ParseFormatInt(n);
    FormatUintDigits(if n < 0 then -(n as int) else n);
  }

  /** `lookupInt(name, set)`: the defined flag's text read back as a base-10 `int64`,
      and 0 when the name is not defined or the text is not such a number. So an int flag
      reads back as its value, a uint flag as its value when that fits an `int64`, and a
      slice flag as 0. */
  function LookupInt(name: string, fs: FlagSet): (r: Int64)
    reads fs, fs.Refs()
    ensures name !in fs.formal ==> r == 0
    ensures name in fs.formal && fs.formal[name].IntValue? ==> r == fs.formal[name].ip.v
    ensures name in fs.formal && fs.formal[name].UintValue? ==>
      r == if fs.formal[name].up.v <= MaxInt64 then fs.formal[name].up.v else 0
    ensures name in fs.formal && fs.formal[name].SliceValue? ==> r == 0
  {
    if name !in fs.formal then 0
    else
      RefOfRegistered(fs, name);
      ParseIntOfValue(fs.formal[name]);
      match ParseInt(fs.formal[name].String())
      case Ok(n) => n
      case Err(_) => 0
  }

  /** What `ParseInt` makes of the text of each kind of registered value. */
  lemma ParseIntOfValue(v: Value)
    ensures v.IntValue? ==> ParseInt(v.String()) == Ok(v.ip.v)
    ensures v.UintValue? && v.up.v <= MaxInt64 ==> ParseInt(v.String()) == Ok(v.up.v)
    ensures v.UintValue? && v.up.v > MaxInt64 ==> ParseInt(v.String()).Err?
    ensures v.SliceValue? ==> ParseInt(v.String()).Err?
  {
    match v
    case IntValue(p) => ParseFormatInt(p.v);
    case UintValue(p) =>
      ParseFormatUint(p.v);
      ParseIntOfUnsigned(v.String(), p.v);
    case SliceValue(_) => ParseRejectsNonNumeral(v.String());
  }

  /** `Context.Int(name)`: the value of `name` in the first flag set along the lineage
      that defines it, read as `lookupInt` does, and 0 when no flag set defines it. */
  function ContextInt(c: Context, name: string): (r: Int64)
    reads c.lineage, RefsOf(c.lineage)
    ensures (forall i :: 0 <= i < |c.lineage| ==> name !in c.lineage[i].formal) ==> r == 0
    ensures forall i ::
              0 <= i < |c.lineage| && name in c.lineage[i].formal
              && (forall j :: 0 <= j < i ==> name !in c.lineage[j].formal)
              ==> r == LookupInt(name, c.lineage[i])
  {
    match LookupFlagSet(name, c.lineage)
    case None => 0
    case Some(fs) =>
      FoundRefsInFrame(name, c.lineage);
      LookupInt(name, fs)
  }

  /** The registration loop of `IntFlag.Apply`: each name in turn is defined with `value`
      as its default, bound to `destination` when there is one and to fresh storage
      otherwise; what was defined before stays. */
  method DefineInts(fs: FlagSet, names: seq<string>, value: Int64, destination: IntCell?)
    requires CanRegister(names, fs)
    modifies fs, destination
    ensures fs.formal.Keys == old(fs.formal).Keys + set n | n in names
    ensures forall n :: n in old(fs.formal) ==> n in fs.formal && fs.formal[n] == old(fs.formal[n])
    ensures forall n :: n in names ==>
      && n in fs.formal
      && fs.formal[n].IntValue?
      && fs.formal[n].ip.v == value
      && (destination != null ==> fs.formal[n].ip == destination)
      && (destination == null ==> fresh(fs.formal[n].ip))
  {
    var i := 0;
    while i < |names|
      invariant 0 <= i <= |names|
      invariant CanRegister(names[i..], fs)
      invariant forall n :: n in fs.formal <==> n in old(fs.formal) || n in names[..i]
      invariant forall n :: n in old(fs.formal) ==> n in fs.formal && fs.formal[n] == old(fs.formal[n])
      invariant forall k :: 0 <= k < i ==>
        && names[k] in fs.formal
        && fs.formal[names[k]].IntValue?
        && fs.formal[names[k]].ip.v == value
        && (destination != null ==> fs.formal[names[k]].ip == destination)
        && (destination == null ==> fresh(fs.formal[names[k]].ip))
    {
      if destination != null {
        fs.IntVar(destination, names[i], value);
      } else {
        var _ := fs.Int(names[i], value);
      }
      i := i + 1;
    }
    assert names[..|names|] == names;
  }

  class IntFlag {
    const name: string
    const aliases: seq<string>
    const destination: IntCell?
    var value: Int64
    var hasBeenSet: bool

    /** A flag literal `&IntFlag{Name: ..., Aliases: ..., Value: ..., Destination: ...}`. */
    constructor (name: string, aliases: seq<string>, value: Int64, destination: IntCell?)
      ensures this.name == name && this.aliases == aliases && this.destination == destination
      ensures this.value == value && !hasBeenSet
    {
      this.name := name;
      this.aliases := aliases;
      this.destination := destination;
      this.value := value;
      hasBeenSet := false;
    }

    /** `Names()`: the name, then the aliases. */
    function Names(): (r: seq<string>)
      ensures |r| == |aliases| + 1 && r[0] == name && r[1..] == aliases
    {
      [name] + aliases
    }

    /** `IsSet()`: whether the environment or a file has set the flag. */
    predicate IsSet()
      reads this
    {
      hasBeenSet
    }

    /** `TakesValue()`: an int flag always takes a value. */
    predicate TakesValue()
      ensures TakesValue()
    {
      true
    }

    /** `Apply(set)`: resolve the value from the environment/file text, then define every
        name in the flag set with the value as default, bound to `destination` when there
        is one and to fresh storage otherwise. A conversion error returns before anything
        is registered and leaves the flag as it was. */
    method Apply(fs: FlagSet, source: Option<string>) returns (err: Option<string>)
      requires CanRegister(Names(), fs)
      modifies this, fs, destination
      ensures ResolveInt(name, source).Failed? ==>
        && err == Some(ResolveInt(name, source).message)
        && value == old(value) && hasBeenSet == old(hasBeenSet)
        && fs.formal == old(fs.formal)
        && (destination != null ==> destination.v == old(destination.v))
      ensures !ResolveInt(name, source).Failed? ==> err == None
      ensures ResolveInt(name, source).Resolved? ==> value == ResolveInt(name, source).v && IsSet()
      ensures ResolveInt(name, source).Unchanged? ==> value == old(value) && IsSet() == old(IsSet())
      ensures err == None ==> fs.formal.Keys == old(fs.formal).Keys + set n | n in Names()
      ensures err == None ==>
        forall n :: n in old(fs.formal) ==> n in fs.formal && fs.formal[n] == old(fs.formal[n])
      ensures err == None ==>
        forall n :: n in Names() ==>
          && n in fs.formal
          && fs.formal[n].IntValue?
          && fs.formal[n].ip.v == value
          && (destination != null ==> fs.formal[n].ip == destination)
          && (destination == null ==> fresh(fs.formal[n].ip))
      ensures err == None ==> forall n :: n in Names() ==> LookupInt(n, fs) == value
    {
      if source.Some? && source.value != "" {
        var parsed := ParseInt(source.value);
        if parsed.Err? {
          return Some(ConversionMessage(source.value, "int", name, parsed.error.Message()));
        }
        value := parsed.value;
        hasBeenSet := true;
      }

      var names := Names();
      DefineInts(fs, names, value, destination);
      err := None;
    }
  }
}
