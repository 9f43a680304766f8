/** What `encoding/json` does with a `[]uint`: `json.Marshal` writes `[1,2,3]`, and
    `json.Unmarshal` into a `[]uint` reads such an array back, replacing the whole slice. */
module Json {
  import opened Wrappers
  import opened Strings
  import opened Strconv

  /** The numerals of the elements, in order. */
  function EncodeElements(xs: seq<Uint64>): (r: seq<string>)
    ensures |r| == |xs|
  {
    if xs == [] then [] else [FormatUint(xs[0])] + EncodeElements(xs[1..])
  }

  /** `json.Marshal` of a non-nil `[]uint`: a bracketed, comma-separated list of numerals
      with no white space. */
  function Encode(xs: seq<Uint64>): (r: string)
    ensures |r| >= 2 && r[0] == '[' && r[|r| - 1] == ']'
  {
    "[" + Join(EncodeElements(xs), ',') + "]"
  }

  /** One array element: a JSON integer literal that fits a `uint`. */
  function DecodeElement(s: string): Option<Uint64> {
    if !Canonical(s) then None
    else match ParseUint(s)
      case Ok(n) => Some(n)
      case Err(_) => None
  }

  function DecodeElements(parts: seq<string>): (r: Option<seq<Uint64>>)
    ensures r.Some? ==> |r.value| == |parts|
  {
    if parts == [] then Some([])
    else match DecodeElement(parts[0])
      case None => None
      case Some(x) =>
        match DecodeElements(parts[1..])
        case None => None
        case Some(rest) => Some([x] + rest)
  }

  /** `json.Unmarshal` into a `[]uint`: `null`, or a bracketed list of numerals; `None`
      stands for the error Unmarshal reports. */
  function Decode(s: string): Option<seq<Uint64>> {
    if s == "null" then Some([])
    else if |s| >= 2 && s[0] == '[' && s[|s| - 1] == ']' then
      var inner := s[1..|s| - 1];
      if inner == [] then Some([]) else DecodeElements(Split(inner, ','))
    else None
  }

  lemma {:induction false} EncodedElementsCanonical(xs: seq<Uint64>)
    ensures forall i :: 0 <= i < |xs| ==> EncodeElements(xs)[i] == FormatUint(xs[i])
  {
    if xs != [] {
      EncodedElementsCanonical(xs[1..]);
    }
  }

  lemma {:induction false} DecodeEncodedElements(xs: seq<Uint64>)
    ensures DecodeElements(EncodeElements(xs)) == Some(xs)
  {
    if xs != [] {
      DecodeEncodedElements(xs[1..]);
      FormatUintDigits(xs[0]);
      ParseFormatUint(xs[0]);
      assert EncodeElements(xs)[1..] == EncodeElements(xs[1..]);
      assert [xs[0]] + xs[1..] == xs;
    }
  }

  /** Round trip: decoding what `Encode` wrote gives back exactly the same elements. */
  lemma DecodeEncode(xs: seq<Uint64>)
    ensures Decode(Encode(xs)) == Some(xs)
  {
    var parts := EncodeElements(xs);
    var s := Encode(xs);
    assert s[1..|s| - 1] == Join(parts, ',');
    if xs != [] {
      EncodedElementsCanonical(xs);
      forall i | 0 <= i < |parts| ensures ',' !in parts[i] {
        FormatUintDigits(xs[i]);
      }
      assert Join(parts, ',') != [] by {
        FormatUintDigits(xs[0]);
        if |parts| > 1 {
          assert |Join(parts, ',')| >= |parts[0]|;
        }
      }
      SplitJoin(parts, ',');
      DecodeEncodedElements(xs);
    }
  }
}
