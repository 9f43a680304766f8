/** `UintSlice` (flag_uint_slice.go): an accumulating `[]uint` flag value. Plain decimal
    values are appended one per `Set`; a value carrying the serialisation marker replaces
    the whole slice. */
module UintSlices {
  import opened Wrappers
  import opened Strings
  import opened Strconv
  import Json

  /** The serialisation marker `slPfx`. Its defining file is not part of this model; the
      program builds it as "sl:::<start time>:::", and the model fixes the time digits. */
  const SlPfx: string := "sl:::0:::"

  /** The slice and error that one `Set(value)` leaves. */
  datatype SetOutcome = SetOutcome(slice: seq<Uint64>, err: Option<string>)

  /** The slice `Set` starts from: the first `Set` discards the defaults. */
  function SetBase(slice: seq<Uint64>, hasBeenSet: bool): seq<Uint64> {
    if hasBeenSet then slice else []
  }

  /** The effect of `UintSlice.Set(value)` on a slice with the given contents and marker.
      A marked value never fails and replaces the contents with the decoded array (an
      array the decoder refuses leaves the slice as `Set` started it); any other value
      either parses as a base-10 `uint` and is appended after everything before it, or is
      an error that appends nothing. */
  function SetResult(slice: seq<Uint64>, hasBeenSet: bool, value: string): (r: SetOutcome)
    ensures HasPrefix(value, SlPfx) ==> r.err == None
    ensures HasPrefix(value, SlPfx) && Json.Decode(value[|SlPfx|..]).Some? ==>
      r.slice == Json.Decode(value[|SlPfx|..]).value
    ensures !HasPrefix(value, SlPfx) ==>
      (r.err == None <==> ParseUint(value).Ok?)
      && |r.slice| == |SetBase(slice, hasBeenSet)| + (if r.err == None then 1 else 0)
      && r.slice[..|SetBase(slice, hasBeenSet)|] == SetBase(slice, hasBeenSet)
      && (r.err == None ==> r.slice[|r.slice| - 1] == ParseUint(value).value)
  {
    var base := SetBase(slice, hasBeenSet);
    if HasPrefix(value, SlPfx) then
      var decoded := Json.Decode(ReplaceFirst(value, SlPfx, ""));
      assert ReplaceFirst(value, SlPfx, "") == "" + value[|SlPfx|..] == value[|SlPfx|..];
      SetOutcome(if decoded.Some? then decoded.value else base, None)
    else
      match ParseUint(value)
      case Ok(n) =>
        assert (base + [n])[..|base|] == base;
        SetOutcome(base + [n], None)
      case Err(e) => SetOutcome(base, Some(e.Message()))
  }

  /** `Set` applied to each value in turn, stopping at the first error: the loop of
      `UintSliceFlag.Apply` over the pieces of the environment text. */
  function SetEach(slice: seq<Uint64>, hasBeenSet: bool, values: seq<string>): SetOutcome
    decreases |values|
  {
    if values == [] then SetOutcome(slice, None)
    else
      var o := SetResult(slice, hasBeenSet, values[0]);
      if o.err.Some? then o else SetEach(o.slice, true, values[1..])
  }

  /** Lowercase hexadecimal digits, as `%#v` prints a `uint`. */
  function FormatHex(n: nat): string {
    var digit := "0123456789abcdef"[n % 16];
    if n < 16 then [digit] else FormatHex(n / 16) + [digit]
  }

  function HexElements(xs: seq<Uint64>): string {
    if xs == [] then ""
    else if |xs| == 1 then "0x" + FormatHex(xs[0])
    else "0x" + FormatHex(xs[0]) + ", " + HexElements(xs[1..])
  }

  /** `fmt.Sprintf("%#v", slice)` for a `[]uint`, e.g. `[]uint{0x1, 0x2}`. */
  function GoSyntax(xs: seq<Uint64>): (r: string)
    ensures r != [] && r[0] == '['
  {
    "[]uint{" + HexElements(xs) + "}"
  }

  class UintSlice {
    var slice: seq<Uint64>
    var hasBeenSet: bool

    /** `NewUintSlice(defaults...)` (and `&UintSlice{}` with no defaults): a copy of the
        defaults, not yet set. */
    constructor (defaults: seq<Uint64>)
      ensures slice == defaults && !hasBeenSet
    {
      slice := defaults;
      hasBeenSet := false;
    }

    /** `Set(value)`: afterwards the slice counts as set, whatever the value. */
    method Set(value: string) returns (err: Option<string>)
      modifies this
      ensures hasBeenSet
      ensures SetOutcome(slice, err) == SetResult(old(slice), old(hasBeenSet), value)
    {
      if !hasBeenSet {
        slice := [];
        hasBeenSet := true;
      }
      if HasPrefix(value, SlPfx) {
        // Deserialising overwrites; an error of the decoder is dropped.
        var decoded := Json.Decode(ReplaceFirst(value, SlPfx, ""));
        if decoded.Some? {
          slice := decoded.value;
        }
        hasBeenSet := true;
        return None;
      }
      var parsed := ParseUint(value);
      if parsed.Err? {
        return Some(parsed.error.Message());
      }
      slice := slice + [parsed.value];
      return None;
    }

    /** `String()`: the Go syntax of the slice. */
    function String(): (r: string)
      reads this
      ensures r != [] && r[0] == '['
    {
      GoSyntax(slice)
    }

    /** `Serialize()`: the marker followed by the JSON array. */
    function Serialize(): (r: string)
      reads this
      ensures HasPrefix(r, SlPfx)
      ensures Json.Decode(r[|SlPfx|..]) == Some(slice)
    {
      var r := SlPfx + Json.Encode(slice);
      assert r[|SlPfx|..] == Json.Encode(slice);
      Json.DecodeEncode(slice);
      r
    }

    /** `Value()`: the current elements, which are what the serialized form carries. */
    function Value(): (r: seq<Uint64>)
      reads this
      ensures Json.Decode(Serialize()[|SlPfx|..]) == Some(r)
    {
      slice
    }
  }

  /** The first `Set` starts from an empty slice: the defaults play no part in the result,
      even when the value is refused. */
  lemma FirstSetDiscardsDefaults(defaults: seq<Uint64>, value: string)
    ensures SetResult(defaults, false, value) == SetResult([], true, value)
  {
  }

  /** A base-10 unsigned value is appended: the earlier elements stay as they were and the
      number is the new last element. */
  lemma SetAppendsNumber(slice: seq<Uint64>, value: string, n: Uint64)
    requires ParseUint(value) == Ok(n)
    ensures SetResult(slice, true, value) == SetOutcome(slice + [n], None)
  {
    ParseUintOk(value);
    assert !HasPrefix(value, SlPfx) by {
      assert IsDigit(value[0]);
    }
  }

  /** A value that is neither marked nor a number is an error and appends nothing. */
  lemma SetRefusesNonNumber(slice: seq<Uint64>, hasBeenSet: bool, value: string)
    requires !HasPrefix(value, SlPfx) && ParseUint(value).Err?
    ensures SetResult(slice, hasBeenSet, value).err.Some?
    ensures SetResult(slice, hasBeenSet, value).slice == SetBase(slice, hasBeenSet)
  {
  }

  /** Round trip: setting any slice, set or not, from the serialisation of `xs` leaves
      exactly `xs`, with no error: a marked value overwrites rather than appends. */
  lemma SetSerialized(slice: seq<Uint64>, hasBeenSet: bool, xs: seq<Uint64>)
    ensures SetResult(slice, hasBeenSet, SlPfx + Json.Encode(xs)) == SetOutcome(xs, None)
  {
    var value := SlPfx + Json.Encode(xs);
    assert HasPrefix(value, SlPfx);
    assert ReplaceFirst(value, SlPfx, "") == Json.Encode(xs);
    Json.DecodeEncode(xs);
  }

  /** Setting a fresh slice, whatever its defaults, from what `u.Serialize()` wrote
      reproduces the elements of `u`. */
  lemma SerializeRoundTrip(u: UintSlice, defaults: seq<Uint64>)
    ensures SetResult(defaults, false, u.Serialize()) == SetOutcome(u.slice, None)
  {
    SetSerialized(defaults, false, u.slice);
  }

  /** The numbers a run of base-10 `uint` texts denote, in order. */
  function Parsed(values: seq<string>): (r: seq<Uint64>)
    requires forall i :: 0 <= i < |values| ==> ParseUint(values[i]).Ok?
    ensures |r| == |values|
    ensures forall i :: 0 <= i < |values| ==> r[i] == ParseUint(values[i]).value
  {
    if values == [] then [] else [ParseUint(values[0]).value] + Parsed(values[1..])
  }

  /** A run that starts with a number continues from the slice with that number appended. */
  lemma SetEachNumber(slice: seq<Uint64>, values: seq<string>)
    requires values != [] && ParseUint(values[0]).Ok?
    ensures SetEach(slice, true, values) == SetEach(slice + [ParseUint(values[0]).value], true, values[1..])
  {
    SetAppendsNumber(slice, values[0], ParseUint(values[0]).value);
  }

  /** Setting a run of numbers on a set slice appends their numbers, in order. */
  lemma {:induction false} SetEachNumbers(slice: seq<Uint64>, values: seq<string>)
    requires forall i :: 0 <= i < |values| ==> ParseUint(values[i]).Ok?
    ensures SetEach(slice, true, values) == SetOutcome(slice + Parsed(values), None)
    decreases |values|
  {
    if values == [] {
      assert slice + [] == slice;
    } else {
      var n := ParseUint(values[0]).value;
      SetEachNumber(slice, values);
      SetEachNumbers(slice + [n], values[1..]);
      assert slice + [n] + Parsed(values[1..]) == slice + Parsed(values);
    }
  }

  /** A value that is neither marked nor a number makes the sequence of `Set`s fail. */
  lemma {:induction false} SetEachRefuses(slice: seq<Uint64>, hasBeenSet: bool, values: seq<string>, k: nat)
    requires k < |values| && !HasPrefix(values[k], SlPfx) && ParseUint(values[k]).Err?
    ensures SetEach(slice, hasBeenSet, values).err.Some?
    decreases |values|
  {
    var o := SetResult(slice, hasBeenSet, values[0]);
    if k > 0 && o.err.None? {
      SetEachRefuses(o.slice, true, values[1..], k - 1);
    }
  }
}
