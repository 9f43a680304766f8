/** The environment/file step every flag's `Apply` starts with: the text found by
    `flagFromEnvOrFile`, what the flag makes of it, and the error it reports. */
module Sources {
  import opened Wrappers
  import opened Strings

  /** The outcome of the environment/file step for one flag: nothing to do, a value
      resolved from the text, or a conversion error with its message. */
  datatype Resolution<T> = Unchanged | Resolved(v: T) | Failed(message: string)

  /** `Apply` acts only on text that a source supplied and that is not empty. */
  predicate Supplied(source: Option<string>) {
    source.Some? && source.value != ""
  }

  /** `fmt.Errorf("could not parse %q as <kind> value for flag <name>: %v", raw, cause)`. */
  function ConversionMessage(raw: string, kind: string, name: string, cause: string): string {
    "could not parse " + Quote(raw) + (" as " + kind + " value for flag ") + name + ": " + cause
  }

  lemma {:induction false} Mentions(p: string, x: string, q: string, y: string, z: string)
    ensures var s := p + x + q + y + ": " + z;
      Contains(s, x) && Contains(s, y) && Contains(s, z)
  {
    var s := p + x + q + y + ": " + z;
    assert s[|p|..|p| + |x|] == x;
    assert OccursAt(s, x, |p|);
    assert s[|p| + |x| + |q|..|p| + |x| + |q| + |y|] == y;
    assert OccursAt(s, y, |p| + |x| + |q|);
    assert s[|s| - |z|..] == z;
    assert OccursAt(s, z, |s| - |z|);
  }

  /** The conversion error names the quoted raw text, the flag and the cause. */
  lemma ConversionMessageMentions(raw: string, kind: string, name: string, cause: string)
    ensures var m := ConversionMessage(raw, kind, name, cause);
      Contains(m, Quote(raw)) && Contains(m, name) && Contains(m, cause)
  {
    Mentions("could not parse ", Quote(raw), " as " + kind + " value for flag ", name, cause);
  }

  /** Plain raw text shows up verbatim between double quotes in the conversion error. */
  lemma PlainTextQuoted(raw: string, kind: string, name: string, cause: string)
    requires forall i :: 0 <= i < |raw| ==> raw[i] !in "\"\\\n\r\t"
    ensures Contains(ConversionMessage(raw, kind, name, cause), "\"" + raw + "\"")
  {
    EscapePlain(raw);
    ConversionMessageMentions(raw, kind, name, cause);
  }
}
