/** `UintFlag` (flag_uint.go): a `uint` flag whose default may be overridden from the
    environment or a file, and the `Context.Uint` accessor. */
module UintFlags {
  import opened Wrappers
  import opened Strconv
  import opened Sources
  import opened GoFlag
  import opened Contexts

  /** The environment/file step of `UintFlag.Apply`: text that is absent or empty changes
      nothing; otherwise it must be a base-10 `uint64`, or the step fails with a message
      that names the text and the flag (and, as the program words it, calls the value an
      `int`). */
  function ResolveUint(name: string, source: Option<string>): (r: Resolution<Uint64>)
    ensures !Supplied(source) <==> r.Unchanged?
    ensures r.Resolved? <==> Supplied(source) && ParseUint(source.value).Ok?
    ensures r.Resolved? ==> r.v == ParseUint(source.value).value
    ensures r.Failed? ==>
      && r.message == ConversionMessage(source.value, "int", name, ParseUint(source.value).error.Message())
      && Strings.Contains(r.message, Strings.Quote(source.value))
      && Strings.Contains(r.message, name)
  {
    if !Supplied(source) then Unchanged
    else match ParseUint(source.value)
      case Ok(n) => Resolved(n)
      case Err(e) =>
        ConversionMessageMentions(source.value, "int", name, e.Message());
        Failed(ConversionMessage(source.value, "int", name, e.Message()))
  }

  /** Text written as `strconv.FormatUint` writes a number resolves to that number. */
  lemma ResolveUintFormatted(name: string, n: Uint64)
    ensures ResolveUint(name, Some(FormatUint(n))) == Resolved(n)
  {
    ParseFormatUint(n);
    FormatUintDigits(n);
  }

  /** `lookupUint(name, set)`: the defined flag's text read back as a base-10 `uint64`
      and converted to Go's `int`, and 0 when the name is not defined or the text is not
      such a number. So a uint flag reads back as its value wrapped into an `int64` (a value
      above 2^63-1 comes back negative), an int flag as its value when that is not
      negative, and a slice flag as 0. */
  function LookupUint(name: string, fs: FlagSet): (r: Int64)
    reads fs, fs.Refs()
    ensures name !in fs.formal ==> r == 0
    ensures name in fs.formal && fs.formal[name].UintValue? ==> r == ToInt64(fs.formal[name].up.v)
    ensures name in fs.formal && fs.formal[name].IntValue? ==>
      r == if fs.formal[name].ip.v >= 0 then fs.formal[name].ip.v else 0
    ensures name in fs.formal && fs.formal[name].SliceValue? ==> r == 0
  {
    if name !in fs.formal then 0
    else
      RefOfRegistered(fs, name);
      ParseUintOfValue(fs.formal[name]);
      match ParseUint(fs.formal[name].String())
      case Ok(n) => ToInt64(n)
      case Err(_) => 0
  }

  /** What `ParseUint` makes of the text of each kind of registered value. */
  lemma ParseUintOfValue(v: Value)
    ensures v.UintValue? ==> ParseUint(v.String()) == Ok(v.up.v)
    ensures v.IntValue? && v.ip.v >= 0 ==> ParseUint(v.String()) == Ok(v.ip.v)
    ensures v.IntValue? && v.ip.v < 0 ==> ParseUint(v.String()).Err?
    ensures v.SliceValue? ==> ParseUint(v.String()).Err?
  {
    match v
    case UintValue(p) => ParseFormatUint(p.v);
    case IntValue(p) =>
      if p.v >= 0 {
        ParseFormatUint(p.v);
      } else {
        ParseUintOfNegative(p.v);
      }
    case SliceValue(_) => ParseRejectsNonNumeral(v.String());
  }

  /** `Context.Uint(name)`: the value of `name` in the first flag set along the lineage
      that defines it, read as `lookupUint` does, and 0 when no flag set defines it. */
  function ContextUint(c: Context, name: string): (r: Int64)
    reads c.lineage, RefsOf(c.lineage)
    ensures (forall i :: 0 <= i < |c.lineage| ==> name !in c.lineage[i].formal) ==> r == 0
    ensures forall i ::
              0 <= i < |c.lineage| && name in c.lineage[i].formal
              && (forall j :: 0 <= j < i ==> name !in c.lineage[j].formal)
              ==> r == LookupUint(name, c.lineage[i])
  {
    match LookupFlagSet(name, c.lineage)
    case None => 0
    case Some(fs) =>
      FoundRefsInFrame(name, c.lineage);
      LookupUint(name, fs)
  }

  /** The registration loop of `UintFlag.Apply`: each name in turn is defined with `value`
      as its default, bound to `destination` when there is one and to fresh storage
      otherwise; what was defined before stays. */
  method DefineUints(fs: FlagSet, names: seq<string>, value: Uint64, destination: UintCell?)
    requires CanRegister(names, fs)
    modifies fs, destination
    ensures fs.formal.Keys == old(fs.formal).Keys + set n | n in names
    ensures forall n :: n in old(fs.formal) ==> n in fs.formal && fs.formal[n] == old(fs.formal[n])
    ensures forall n :: n in names ==>
      && n in fs.formal
      && fs.formal[n].UintValue?
      && fs.formal[n].up.v == value
      && (destination != null ==> fs.formal[n].up == destination)
      && (destination == null ==> fresh(fs.formal[n].up))
  {
    var i := 0;
    while i < |names|
      invariant 0 <= i <= |names|
      invariant CanRegister(names[i..], fs)
      invariant forall n :: n in fs.formal <==> n in old(fs.formal) || n in names[..i]
      invariant forall n :: n in old(fs.formal) ==> n in fs.formal && fs.formal[n] == old(fs.formal[n])
      invariant forall k :: 0 <= k < i ==>
        && names[k] in fs.formal
        && fs.formal[names[k]].UintValue?
        && fs.formal[names[k]].up.v == value
        && (destination != null ==> fs.formal[names[k]].up == destination)
        && (destination == null ==> fresh(fs.formal[names[k]].up))
    {
      if destination != null {
        fs.UintVar(destination, names[i], value);
      } else {
        var _ := fs.Uint(names[i], value);
      }
      i := i + 1;
    }
    assert names[..|names|] == names;
  }

  class UintFlag {
    const name: string
    const aliases: seq<string>
    const destination: UintCell?
    var value: Uint64
    var hasBeenSet: bool

    /** A flag literal `&UintFlag{Name: ..., Aliases: ..., Value: ..., Destination: ...}`. */
    constructor (name: string, aliases: seq<string>, value: Uint64, destination: UintCell?)
      ensures this.name == name && this.aliases == aliases && this.destination == destination
      ensures this.value == value && !hasBeenSet
    {
      this.name := name;
      this.aliases := aliases;
      this.destination := destination;
      this.value := value;
      hasBeenSet := false;
    }

    /** `Names()`: the name, then the aliases. */
    function Names(): (r: seq<string>)
      ensures |r| == |aliases| + 1 && r[0] == name && r[1..] == aliases
    {
      [name] + aliases
    }

    /** `IsSet()`: whether the environment or a file has set the flag. */
    predicate IsSet()
      reads this
    {
      hasBeenSet
    }

    /** `TakesValue()`: a uint flag always takes a value. */
    predicate TakesValue()
      ensures TakesValue()
    {
      true
    }

    /** `Apply(set)`: resolve the value from the environment/file text, then define every
        name in the flag set with the value as default, bound to `destination` when there
        is one and to fresh storage otherwise. A conversion error returns before anything
        is registered and leaves the flag as it was. */
    method Apply(fs: FlagSet, source: Option<string>) returns (err: Option<string>)
      requires CanRegister(Names(), fs)
      modifies this, fs, destination
      ensures ResolveUint(name, source).Failed? ==>
        && err == Some(ResolveUint(name, source).message)
        && value == old(value) && hasBeenSet == old(hasBeenSet)
        && fs.formal == old(fs.formal)
        && (destination != null ==> destination.v == old(destination.v))
      ensures !ResolveUint(name, source).Failed? ==> err == None
      ensures ResolveUint(name, source).Resolved? ==> value == ResolveUint(name, source).v && IsSet()
      ensures ResolveUint(name, source).Unchanged? ==> value == old(value) && IsSet() == old(IsSet())
      ensures err == None ==> fs.formal.Keys == old(fs.formal).Keys + set n | n in Names()
      ensures err == None ==>
        forall n :: n in old(fs.formal) ==> n in fs.formal && fs.formal[n] == old(fs.formal[n])
      ensures err == None ==>
        forall n :: n in Names() ==>
          && n in fs.formal
          && fs.formal[n].UintValue?
          && fs.formal[n].up.v == value
          && (destination != null ==> fs.formal[n].up == destination)
          && (destination == null ==> fresh(fs.formal[n].up))
      ensures err == None ==> forall n :: n in Names() ==> LookupUint(n, fs) == ToInt64(value)
    {
      if source.Some? && source.value != "" {
        var parsed := ParseUint(source.value);
        if parsed.Err? {
          return Some(ConversionMessage(source.value, "int", name, parsed.error.Message()));
        }
        value := parsed.value;
        hasBeenSet := true;
      }

      var names := Names();
      DefineUints(fs, names, value, destination);
      err := None;
    }
  }
}
