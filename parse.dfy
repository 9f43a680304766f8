/** Short-option splitting and the retrying parse loop (parse.go). A combined token such
    as `-it` is broken into `-i -t` when every character after the dash names a defined
    flag; the parse is retried after each such split. */
module Parse {
  import opened Wrappers
  import opened Strings
  import opened GoFlag

  /** The prefix parse.go tests error texts against, as written. */
  const AsWrittenPrefix: string := "flag provided but not default: -"
  /** The prefix Go's flag package puts before an undefined flag's name. */
  const GoUnknownFlag: string := "flag provided but not defined: -"

  /** `isSplittable(arg)`: one leading dash, not two, and more than two characters. */
  function IsSplittable(arg: string): (r: bool)
    ensures r <==> |arg| > 2 && arg[0] == '-' && arg[1] != '-'
  {
    if |arg| > 2 then
      assert arg[..1] == [arg[0]] && arg[..2] == [arg[0], arg[1]];
      HasPrefix(arg, "-") && !HasPrefix(arg, "--")
    else false
  }

  /** Every character after the first names a defined flag. */
  predicate AllShortFlagsDefined(names: set<string>, arg: string) {
    forall k :: 1 <= k < |arg| ==> [arg[k]] in names
  }

  /** One `-c` token per character `c`, in order. */
  function Dashed(s: string): (r: seq<string>)
    ensures |r| == |s|
    ensures forall k :: 0 <= k < |s| ==> r[k] == ['-', s[k]]
  {
    if s == [] then [] else [['-', s[0]]] + Dashed(s[1..])
  }

  /** The characters of the tokens after their first, run together: undoes `Dashed`. */
  function Undashed(tokens: seq<string>): string {
    if tokens == [] then ""
    else (if tokens[0] == [] then "" else tokens[0][1..]) + Undashed(tokens[1..])
  }

  /** What `splitShortOptions` returns, as a function of the defined names. */
  function SplitTokens(names: set<string>, arg: string): seq<string> {
    if IsSplittable(arg) && AllShortFlagsDefined(names, arg) then Dashed(arg[1..]) else [arg]
  }

  /** The number of splittable tokens: the measure the retry loop decreases. */
  function SplittableCount(args: seq<string>): nat {
    if args == [] then 0 else (if IsSplittable(args[0]) then 1 else 0) + SplittableCount(args[1..])
  }

  lemma {:induction false} UndashDashed(s: string)
    ensures Undashed(Dashed(s)) == s
  {
    if s != [] {
      UndashDashed(s[1..]);
      assert Dashed(s)[1..] == Dashed(s[1..]);
    }
  }

  lemma {:induction false} CountConcat(a: seq<string>, b: seq<string>)
    ensures SplittableCount(a + b) == SplittableCount(a) + SplittableCount(b)
  {
    if a != [] {
      assert (a + b)[0] == a[0] && (a + b)[1..] == a[1..] + b;
      CountConcat(a[1..], b);
    } else {
      assert a + b == b;
    }
  }

  lemma {:induction false} DashedCount(s: string)
    ensures SplittableCount(Dashed(s)) == 0
  {
    if s != [] {
      assert Dashed(s)[1..] == Dashed(s[1..]);
      DashedCount(s[1..]);
    }
  }

  /** The tokens a split produces are never themselves splittable, there are at least two
      of them, and dropping their dashes gives back the characters after the original's
      dash; a token that is not split comes back alone. */
  lemma SplitTokensShape(names: set<string>, arg: string)
    ensures var r := SplitTokens(names, arg);
      && (|r| == 1 <==> !(IsSplittable(arg) && AllShortFlagsDefined(names, arg)))
      && (|r| == 1 ==> r == [arg])
      && (|r| > 1 ==>
            && (forall k :: 0 <= k < |r| ==> !IsSplittable(r[k]))
            && Undashed(r) == arg[1..]
            && SplittableCount(r) == 0)
  {
    if IsSplittable(arg) && AllShortFlagsDefined(names, arg) {
      UndashDashed(arg[1..]);
      DashedCount(arg[1..]);
    }
  }

  /** `args[:i] ++ tokens ++ args[i+1:]`: the argument at `i` replaced by `tokens`. */
  function Splice(args: seq<string>, i: nat, tokens: seq<string>): (r: seq<string>)
    requires i < |args|
    ensures |r| == |args| - 1 + |tokens|
    ensures r[..i] == args[..i]
    ensures r[i..i + |tokens|] == tokens
    ensures r[i + |tokens|..] == args[i + 1..]
  {
    var r := args[..i] + tokens + args[i + 1..];
    assert r[..i] == args[..i];
    assert r[i..i + |tokens|] == tokens;
    assert r[i + |tokens|..] == args[i + 1..];
    r
  }

  /** Splicing in the tokens of a split removes exactly one splittable token. */
  lemma SpliceDecreases(names: set<string>, args: seq<string>, i: nat)
    requires i < |args| && |SplitTokens(names, args[i])| > 1
    ensures SplittableCount(Splice(args, i, SplitTokens(names, args[i]))) == SplittableCount(args) - 1
  {
    var tokens := SplitTokens(names, args[i]);
    SplitTokensShape(names, args[i]);
    assert args == args[..i] + [args[i]] + args[i + 1..];
    CountConcat(args[..i] + [args[i]], args[i + 1..]);
    CountConcat(args[..i], [args[i]]);
    CountConcat(args[..i] + tokens, args[i + 1..]);
    CountConcat(args[..i], tokens);
    assert SplittableCount([args[i]]) == 1 by {
      assert [args[i]][1..] == [];
    }
  }

  /** The first argument that, with one leading dash removed, is the offending name. */
  function FirstMatch(args: seq<string>, trimmed: string): (r: Option<nat>)
    ensures r.None? <==> forall k :: 0 <= k < |args| ==> TrimPrefix(args[k], "-") != trimmed
    ensures r.Some? ==>
      && r.value < |args|
      && TrimPrefix(args[r.value], "-") == trimmed
      && forall k :: 0 <= k < r.value ==> TrimPrefix(args[k], "-") != trimmed
  {
    if args == [] then None
    else if TrimPrefix(args[0], "-") == trimmed then Some(0)
    else match FirstMatch(args[1..], trimmed)
      case None => None
      case Some(i) => Some(i + 1)
  }

  /** The parts of the command `parseIter` consults: whether short-option handling is on,
      and what `newFlagSet()` yields (the defined flags of a fresh set, or an error). */
  datatype IterativeParser = IterativeParser(
    shortOptionHandling: bool,
    newFlagSet: Result<map<string, Value>, string>)

  /** The result of `parseIter` with error prefix `prefix`, starting from a flag set with
      the given flags. `parse(names, args)` is the flag set's `Parse`: the error text it
      reports, or `None`. Whatever the result, it is the error of `newFlagSet()`, or what
      a parse against the original or the fresh flag set reported, or success under shell
      completion. */
  function Outcome(prefix: string, formal: map<string, Value>, ip: IterativeParser,
                   args: seq<string>, shellComplete: bool,
                   parse: (set<string>, seq<string>) -> Option<string>): (r: Option<string>)
    ensures r.Some? ==>
      || (ip.newFlagSet.Err? && r.value == ip.newFlagSet.error)
      || (exists a :: r == parse(formal.Keys, a))
      || (ip.newFlagSet.Ok? && exists a :: r == parse(ip.newFlagSet.value.Keys, a))
    ensures r.None? ==>
      || shellComplete
      || (exists a :: parse(formal.Keys, a).None?)
      || (ip.newFlagSet.Ok? && exists a :: parse(ip.newFlagSet.value.Keys, a).None?)
    decreases SplittableCount(args)
  {
    var err := parse(formal.Keys, args);
    if !ip.shortOptionHandling || err.None? then
      if shellComplete then None else err
    else
      var trimmed := TrimPrefix(err.value, prefix);
      if err.value == trimmed then err
      else match FirstMatch(args, trimmed)
        case None => err
        case Some(i) =>
          var tokens := SplitTokens(formal.Keys, args[i]);
          if |tokens| == 1 then err
          else match ip.newFlagSet
            case Err(e) => Some(e)
            case Ok(newFormal) =>
              SpliceDecreases(formal.Keys, args, i);
              Outcome(prefix, newFormal, ip, Splice(args, i, tokens), shellComplete, parse)
  }

  /** Whether `parseIter` replaces the flag set: the first parse fails with a recognised
      error, the first argument naming the flag splits, and `newFlagSet()` succeeds. Later
      passes can only replace it again with the same fresh set. */
  predicate Retried(prefix: string, formal: map<string, Value>, ip: IterativeParser,
                    args: seq<string>, shellComplete: bool,
                    parse: (set<string>, seq<string>) -> Option<string>)
  {
    var err := parse(formal.Keys, args);
    && ip.shortOptionHandling && err.Some?
    && TrimPrefix(err.value, prefix) != err.value
    && FirstMatch(args, TrimPrefix(err.value, prefix)).Some?
    && |SplitTokens(formal.Keys, args[FirstMatch(args, TrimPrefix(err.value, prefix)).value])| > 1
    && ip.newFlagSet.Ok?
  }

  /** The flags the set ends with after `parseIter`, pass by pass as in `Outcome`: each
      retry installs the fresh set, so the set ends as it started unless the first pass
      retried, and is then the fresh set. */
  function FinalFormal(prefix: string, formal: map<string, Value>, ip: IterativeParser,
                       args: seq<string>, shellComplete: bool,
                       parse: (set<string>, seq<string>) -> Option<string>): (r: map<string, Value>)
    ensures r == if Retried(prefix, formal, ip, args, shellComplete, parse)
                 then ip.newFlagSet.value else formal
    decreases SplittableCount(args)
  {
    if !Retried(prefix, formal, ip, args, shellComplete, parse) then formal
    else
      var trimmed := TrimPrefix(parse(formal.Keys, args).value, prefix);
      var i := FirstMatch(args, trimmed).value;
      SpliceDecreases(formal.Keys, args, i);
      FinalFormal(prefix, ip.newFlagSet.value, ip, Splice(args, i, SplitTokens(formal.Keys, args[i])),
                  shellComplete, parse)
  }

  /** The `shortFlagsExists` closure of `splitShortOptions`. */
  method ShortFlagsExist(fs: FlagSet, s: string) returns (b: bool)
    ensures b == AllShortFlagsDefined(fs.formal.Keys, s)
  {
    var k := 1;
    while k < |s|
      invariant 1 <= k
      invariant forall j :: 1 <= j < k && j < |s| ==> [s[j]] in fs.formal
    {
      if [s[k]] !in fs.formal {
        return false;
      }
      k := k + 1;
    }
    return true;
  }

  /** `splitShortOptions(set, arg)`: `[arg]` unless `arg` is splittable and every character
      after its dash names a flag defined in `set`, and then one `-c` token per such
      character, in order. */
  method SplitShortOptions(fs: FlagSet, arg: string) returns (r: seq<string>)
    ensures r == SplitTokens(fs.formal.Keys, arg)
    ensures !(IsSplittable(arg) && AllShortFlagsDefined(fs.formal.Keys, arg)) ==> r == [arg]
    ensures IsSplittable(arg) && AllShortFlagsDefined(fs.formal.Keys, arg) ==>
      |r| == |arg| - 1 && forall k :: 0 <= k < |r| ==> r[k] == "-" + [arg[k + 1]]
  {
    if !IsSplittable(arg) {
      return [arg];
    }
    var exist := ShortFlagsExist(fs, arg);
    if !exist {
      return [arg];
    }
    var separated: seq<string> := [];
    var k := 1;
    while k < |arg|
      invariant 1 <= k <= |arg|
      invariant |separated| == k - 1
      invariant forall j :: 0 <= j < k - 1 ==> separated[j] == "-" + [arg[j + 1]]
    {
      separated := separated + ["-" + [arg[k]]];
      k := k + 1;
    }
    forall j | 0 <= j < |separated| ensures separated[j] == Dashed(arg[1..])[j] {
      assert arg[1..][j] == arg[j + 1];
    }
    return separated;
  }

  /** The scan of `parseIter` for the argument the error names: the first argument that,
      with one leading dash removed, is `trimmed` is replaced by its short options. The
      scan reports no split when no argument matches or the match does not split. */
  method SplitOffending(fs: FlagSet, args: seq<string>, trimmed: string)
    returns (argsWereSplit: bool, result: seq<string>)
    ensures argsWereSplit <==>
      FirstMatch(args, trimmed).Some? && |SplitTokens(fs.formal.Keys, args[FirstMatch(args, trimmed).value])| > 1
    ensures argsWereSplit ==>
      var i := FirstMatch(args, trimmed).value;
      result == Splice(args, i, SplitTokens(fs.formal.Keys, args[i]))
    ensures !argsWereSplit ==> result == args
  {
    var i := 0;
    while i < |args|
      invariant 0 <= i <= |args|
      invariant forall k :: 0 <= k < i ==> TrimPrefix(args[k], "-") != trimmed
    {
      if TrimPrefix(args[i], "-") != trimmed {
        i := i + 1;
        continue;
      }
      var shortOpts := SplitShortOptions(fs, args[i]);
      if |shortOpts| == 1 {
        return false, args;
      }
      return true, Splice(args, i, shortOpts);
    }
    return false, args;
  }

  /** `parseIter(set, ip, args, shellComplete)`, with the error prefix as a parameter:
      parse; on an error naming an undefined flag, split the first argument that names it
      into short options, take a fresh flag set and parse again. The flag set is left
      alone unless the first pass splits an argument and obtains a fresh set, and is then
      that fresh set. */
  method ParseIterWith(prefix: string, fs: FlagSet, ip: IterativeParser, args: seq<string>,
                       shellComplete: bool, parse: (set<string>, seq<string>) -> Option<string>)
    returns (err: Option<string>)
    modifies fs
    ensures err == Outcome(prefix, old(fs.formal), ip, args, shellComplete, parse)
    ensures fs.formal == FinalFormal(prefix, old(fs.formal), ip, args, shellComplete, parse)
  {
    var current := args;
    while true
      invariant Outcome(prefix, fs.formal, ip, current, shellComplete, parse)
             == Outcome(prefix, old(fs.formal), ip, args, shellComplete, parse)
      invariant FinalFormal(prefix, fs.formal, ip, current, shellComplete, parse)
             == FinalFormal(prefix, old(fs.formal), ip, args, shellComplete, parse)
      decreases SplittableCount(current)
    {
      var e := parse(fs.formal.Keys, current);
      if !ip.shortOptionHandling || e.None? {
        if shellComplete {
          return None;
        }
        return e;
      }

      var errStr := e.value;
      var trimmed := TrimPrefix(errStr, prefix);
      if errStr == trimmed {
        return e;
      }

      ghost var before := current;
      var argsWereSplit;
      argsWereSplit, current := SplitOffending(fs, current, trimmed);
      if !argsWereSplit {
        return e;
      }
      SpliceDecreases(fs.formal.Keys, before, FirstMatch(before, trimmed).value);

      match ip.newFlagSet
      case Err(msg) =>
        return Some(msg);
      case Ok(newFormal) =>
        fs.formal := newFormal;
    }
  }

  /** `parseIter` as written, with the prefix "flag provided but not default: -". */
  method ParseIter(fs: FlagSet, ip: IterativeParser, args: seq<string>, shellComplete: bool,
                   parse: (set<string>, seq<string>) -> Option<string>)
    returns (err: Option<string>)
    modifies fs
    ensures err == Outcome(AsWrittenPrefix, old(fs.formal), ip, args, shellComplete, parse)
    ensures fs.formal == if Retried(AsWrittenPrefix, old(fs.formal), ip, args, shellComplete, parse)
                         then ip.newFlagSet.value else old(fs.formal)
  {
    err := ParseIterWith(AsWrittenPrefix, fs, ip, args, shellComplete, parse);
  }

  /** `parseIter` with the prefix Go's flag package actually writes. */
  method ParseIterCorrected(fs: FlagSet, ip: IterativeParser, args: seq<string>, shellComplete: bool,
                            parse: (set<string>, seq<string>) -> Option<string>)
    returns (err: Option<string>)
    modifies fs
    ensures err == Outcome(GoUnknownFlag, old(fs.formal), ip, args, shellComplete, parse)
    ensures fs.formal == if Retried(GoUnknownFlag, old(fs.formal), ip, args, shellComplete, parse)
                         then ip.newFlagSet.value else old(fs.formal)
  {
    err := ParseIterWith(GoUnknownFlag, fs, ip, args, shellComplete, parse);
  }

  /** With short-option handling off, or when the parse succeeds, the parse's result is
      returned, except that shell completion turns it into success. */
  lemma PlainParse(prefix: string, formal: map<string, Value>, ip: IterativeParser,
                   args: seq<string>, shellComplete: bool,
                   parse: (set<string>, seq<string>) -> Option<string>)
    requires !ip.shortOptionHandling || parse(formal.Keys, args).None?
    ensures Outcome(prefix, formal, ip, args, shellComplete, parse)
         == (if shellComplete then None else parse(formal.Keys, args))
    ensures !Retried(prefix, formal, ip, args, shellComplete, parse)
  {
  }

  /** An error whose text does not start with the prefix is returned as it is, whatever
      `shellComplete` says. */
  lemma ForeignErrorReturned(prefix: string, formal: map<string, Value>, ip: IterativeParser,
                             args: seq<string>, shellComplete: bool,
                             parse: (set<string>, seq<string>) -> Option<string>, msg: string)
    requires ip.shortOptionHandling && parse(formal.Keys, args) == Some(msg)
    requires !HasPrefix(msg, prefix)
    ensures Outcome(prefix, formal, ip, args, shellComplete, parse) == Some(msg)
    ensures !Retried(prefix, formal, ip, args, shellComplete, parse)
  {
  }

  /** With the prefix as written, an unknown-flag error of Go's flag package is never
      recognised: `parseIter` returns it without splitting anything. */
  lemma AsWrittenNeverSplits(formal: map<string, Value>, ip: IterativeParser,
                             args: seq<string>, shellComplete: bool,
                             parse: (set<string>, seq<string>) -> Option<string>, name: string)
    requires ip.shortOptionHandling && parse(formal.Keys, args) == Some(GoUnknownFlag + name)
    ensures Outcome(AsWrittenPrefix, formal, ip, args, shellComplete, parse) == Some(GoUnknownFlag + name)
    ensures !Retried(AsWrittenPrefix, formal, ip, args, shellComplete, parse)
  {
    var msg := GoUnknownFlag + name;
    assert msg[25] == 'i' && AsWrittenPrefix[25] == 'a';
    assert !HasPrefix(msg, AsWrittenPrefix);
  }

  /** A recognised error whose name matches no argument is returned. */
  lemma NoMatchReturned(prefix: string, formal: map<string, Value>, ip: IterativeParser,
                        args: seq<string>, shellComplete: bool,
                        parse: (set<string>, seq<string>) -> Option<string>, name: string)
    requires ip.shortOptionHandling && prefix != [] && parse(formal.Keys, args) == Some(prefix + name)
    requires forall k :: 0 <= k < |args| ==> TrimPrefix(args[k], "-") != name
    ensures Outcome(prefix, formal, ip, args, shellComplete, parse) == Some(prefix + name)
    ensures !Retried(prefix, formal, ip, args, shellComplete, parse)
  {
    assert HasPrefix(prefix + name, prefix) && (prefix + name)[|prefix|..] == name;
  }

  /** When the first argument naming the offending flag does not split, the error was
      accurate and is returned. */
  lemma NoSplitReturned(prefix: string, formal: map<string, Value>, ip: IterativeParser,
                        args: seq<string>, shellComplete: bool,
                        parse: (set<string>, seq<string>) -> Option<string>, name: string, i: nat)
    requires ip.shortOptionHandling && prefix != [] && parse(formal.Keys, args) == Some(prefix + name)
    requires FirstMatch(args, name) == Some(i)
    requires !(IsSplittable(args[i]) && AllShortFlagsDefined(formal.Keys, args[i]))
    ensures Outcome(prefix, formal, ip, args, shellComplete, parse) == Some(prefix + name)
    ensures !Retried(prefix, formal, ip, args, shellComplete, parse)
  {
    assert HasPrefix(prefix + name, prefix) && (prefix + name)[|prefix|..] == name;
  }

  /** After a split, a failing `newFlagSet` ends the loop with its own error, not with the
      parse error. */
  lemma NewFlagSetFailure(prefix: string, formal: map<string, Value>, ip: IterativeParser,
                          args: seq<string>, shellComplete: bool,
                          parse: (set<string>, seq<string>) -> Option<string>, name: string, i: nat)
    requires ip.shortOptionHandling && prefix != [] && parse(formal.Keys, args) == Some(prefix + name)
    requires FirstMatch(args, name) == Some(i)
    requires IsSplittable(args[i]) && AllShortFlagsDefined(formal.Keys, args[i])
    requires ip.newFlagSet.Err?
    ensures Outcome(prefix, formal, ip, args, shellComplete, parse) == Some(ip.newFlagSet.error)
    ensures !Retried(prefix, formal, ip, args, shellComplete, parse)
  {
    assert HasPrefix(prefix + name, prefix) && (prefix + name)[|prefix|..] == name;
    SplitTokensShape(formal.Keys, args[i]);
  }

  /** A split retries with only the first matching argument replaced by its short options,
      every other argument keeping its order, against the fresh flag set. */
  lemma RetryAfterSplit(prefix: string, formal: map<string, Value>, ip: IterativeParser,
                        args: seq<string>, shellComplete: bool,
                        parse: (set<string>, seq<string>) -> Option<string>, name: string, i: nat)
    requires ip.shortOptionHandling && prefix != [] && parse(formal.Keys, args) == Some(prefix + name)
    requires FirstMatch(args, name) == Some(i)
    requires IsSplittable(args[i]) && AllShortFlagsDefined(formal.Keys, args[i])
    requires ip.newFlagSet.Ok?
    ensures Outcome(prefix, formal, ip, args, shellComplete, parse)
         == Outcome(prefix, ip.newFlagSet.value, ip, args[..i] + Dashed(args[i][1..]) + args[i + 1..],
                    shellComplete, parse)
    ensures Retried(prefix, formal, ip, args, shellComplete, parse)
  {
    assert HasPrefix(prefix + name, prefix) && (prefix + name)[|prefix|..] == name;
    assert TrimPrefix(prefix + name, prefix) == name;
    SplitTokensShape(formal.Keys, args[i]);
    assert Splice(args, i, SplitTokens(formal.Keys, args[i])) == args[..i] + Dashed(args[i][1..]) + args[i + 1..];
  }

  /** With Go's own prefix, `-it` over flags `i` and `t` is split and the retry succeeds;
      with the prefix as written the same call fails with the parse error. */
  lemma CombinedShortOptions(v: Value)
    ensures var formal := map["i" := v, "t" := v];
      var ip := IterativeParser(true, Ok(formal));
      var parse := (names: set<string>, a: seq<string>) =>
        if a == ["-it"] then Some(GoUnknownFlag + "it") else None;
      && Outcome(GoUnknownFlag, formal, ip, ["-it"], false, parse) == None
      && Outcome(AsWrittenPrefix, formal, ip, ["-it"], false, parse) == Some(GoUnknownFlag + "it")
  {
    var formal := map["i" := v, "t" := v];
    var ip := IterativeParser(true, Ok(formal));
    var parse := (names: set<string>, a: seq<string>) =>
      if a == ["-it"] then Some(GoUnknownFlag + "it") else None;
    var args := ["-it"];
    assert TrimPrefix(args[0], "-") == "it" by {
      assert HasPrefix(args[0], "-");
    }
    assert FirstMatch(args, "it") == Some(0);
    assert IsSplittable("-it");
    assert AllShortFlagsDefined(formal.Keys, "-it") by {
      assert ["-it"[1]] == "i" && ["-it"[2]] == "t";
    }
    var tokens := SplitTokens(formal.Keys, "-it");
    assert tokens == ["-i", "-t"];
    assert Splice(args, 0, tokens) == ["-i", "-t"];
    assert parse(formal.Keys, ["-i", "-t"]) == None;
    RetryAfterSplit(GoUnknownFlag, formal, ip, args, false, parse, "it", 0);
    AsWrittenNeverSplits(formal, ip, args, false, parse, "it");
  }
}
