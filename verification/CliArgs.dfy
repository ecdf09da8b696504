/**
  Flag scanning on the command line (src/consumer/cli-args.ts): assertFlags checks the arguments
  once; optionalFlag and flagValues scan them again on their own. Here all three are tied to one grammar.
 */
module CliArgs {
  import opened Wrappers

  /** One flag as given: alone, or followed by its value. */
  datatype Given = Bare(flag: string) | Valued(flag: string, value: string)

  datatype Flags = Flags(valued: set<string>, repeated: set<string>, bare: set<string>)

  predicate IsFlag(s: string)
  {
    |s| >= 2 && s[0] == '-' && s[1] == '-'
  }

  predicate IsValue(s: string)
  {
    |s| > 0 && !IsFlag(s)
  }

  // ---------- The grammar ----------

  function Words(g: Given): seq<string>
  {
    match g
    case Bare(flag) => [flag]
    case Valued(flag, value) => [flag, value]
  }

  function Unparse(given: seq<Given>): seq<string>
  {
    if |given| == 0 then [] else Words(given[0]) + Unparse(given[1..])
  }

  predicate Fits(f: Flags, g: Given)
  {
    IsFlag(g.flag) &&
    match g
    case Bare(flag) => flag in f.bare
    case Valued(flag, value) => flag !in f.bare && flag in f.valued && IsValue(value)
  }

  predicate NoRepeats(f: Flags, given: seq<Given>)
  {
    forall i, j :: 0 <= i < j < |given| && given[i].flag == given[j].flag ==> given[i].flag in f.repeated
  }

  predicate AllFit(f: Flags, given: seq<Given>)
  {
    forall i :: 0 <= i < |given| ==> Fits(f, given[i])
  }

  /** These flags, one after another, are what the arguments say. */
  predicate Says(f: Flags, given: seq<Given>, args: seq<string>)
  {
    Unparse(given) == args && AllFit(f, given) && NoRepeats(f, given)
  }

  lemma {:induction false} UnparseAppends(given: seq<Given>, g: Given)
    ensures Unparse(given + [g]) == Unparse(given) + Words(g)
  {
    if |given| == 0 {
      assert given + [g] == [g] && [g][1..] == [];
    } else {
      UnparseAppends(given[1..], g);
      assert (given + [g])[1..] == given[1..] + [g];
    }
  }

  lemma {:induction false} FirstFlag(f: Flags, given: seq<Given>, args: seq<string>)
    requires Unparse(given) == args && AllFit(f, given) && |args| > 0
    ensures |given| > 0 && args[0] == given[0].flag && |args| >= |Words(given[0])|
    ensures given[0].Valued? ==> args[1] == given[0].value
    ensures given[0].Valued? <==> args[0] !in f.bare
    ensures Unparse(given[1..]) == args[|Words(given[0])|..]
  {
    assert Fits(f, given[0]);
  }

  /** The arguments can be read in at most one way. */
  lemma {:induction false} ReadingIsUnique(f: Flags, a: seq<Given>, b: seq<Given>)
    requires AllFit(f, a) && AllFit(f, b) && Unparse(a) == Unparse(b)
    ensures a == b
  {
    if |a| > 0 && |b| > 0 {
      FirstFlag(f, a, Unparse(a));
      FirstFlag(f, b, Unparse(b));
      ReadingIsUnique(f, a[1..], b[1..]);
      assert a == [a[0]] + a[1..] && b == [b[0]] + b[1..];
    }
  }

  lemma DropOfLonger(words: seq<string>, rest: seq<string>, k: nat)
    requires k <= |words|
    ensures (words + rest)[k..] == words[k..] + rest
    ensures forall i :: 0 <= i < |words| ==> (words + rest)[i] == words[i]
  {
  }

  lemma SameFirst(f: Flags, given: seq<Given>, start: seq<Given>, rest: seq<string>)
    requires AllFit(f, given) && AllFit(f, start) && |start| > 0 && Unparse(given) == Unparse(start) + rest
    ensures |given| > 0 && given[0] == start[0]
    ensures Unparse(given[1..]) == Unparse(start[1..]) + rest
  {
    var words := Unparse(start);
    assert |words| == |Words(start[0])| + |Unparse(start[1..])|;
    FirstFlag(f, start, words);
    FirstFlag(f, given, words + rest);
    DropOfLonger(words, rest, |Words(start[0])|);
    assert given[0].flag == start[0].flag;
    assert given[0] == start[0];
  }

  /** Any reading of the whole continues a reading of a part that ends where the rest begins. */
  lemma {:induction false} ReadingContinues(f: Flags, given: seq<Given>, start: seq<Given>, rest: seq<string>)
    requires AllFit(f, given) && AllFit(f, start) && Unparse(given) == Unparse(start) + rest
    ensures start <= given && Unparse(given[|start|..]) == rest
    decreases |start|
  {
    if |start| == 0 {
      assert given[0..] == given && Unparse(start) + rest == rest;
    } else {
      SameFirst(f, given, start, rest);
      ReadingContinues(f, given[1..], start[1..], rest);
      assert given == [given[0]] + given[1..] && start == [start[0]] + start[1..];
      assert given[|start|..] == given[1..][|start[1..]|..];
    }
  }

  // ---------- Checking ----------

  function FlagsOf(given: seq<Given>): set<string>
  {
    set i | 0 <= i < |given| :: given[i].flag
  }

  lemma FlagsOfOneMore(given: seq<Given>, g: Given)
    ensures FlagsOf(given + [g]) == FlagsOf(given) + {g.flag}
  {
    var longer := given + [g];
    forall flag | flag in FlagsOf(given) + {g.flag} ensures flag in FlagsOf(longer) {
      if flag == g.flag {
        assert longer[|given|].flag == flag;
      } else {
        var i :| 0 <= i < |given| && given[i].flag == flag;
        assert longer[i].flag == flag;
      }
    }
  }

  /** One flag more that fits and may appear. */
  lemma SaysOneMore(f: Flags, given: seq<Given>, args: seq<string>, g: Given)
    requires Says(f, given, args) && Fits(f, g) && (g.flag in FlagsOf(given) ==> g.flag in f.repeated)
    ensures Says(f, given + [g], args + Words(g))
  {
    UnparseAppends(given, g);
    assert forall i :: 0 <= i < |given| && given[i].flag == g.flag ==> g.flag in FlagsOf(given);
  }

  /** Accepts exactly the arguments that the grammar can read. */
  method AssertFlags(args: seq<string>, start: nat, f: Flags) returns (accepted: bool, ghost given: seq<Given>)
    requires start <= |args|
    ensures accepted ==> Says(f, given, args[start..])
    ensures !accepted ==> forall other :: !Says(f, other, args[start..])
  {
    given := [];
    var seen: set<string> := {};
    var index := start;
    while index < |args|
      invariant start <= index <= |args|
      invariant Says(f, given, args[start..index])
      invariant seen == FlagsOf(given)
    {
      var flag := args[index];
      ghost var rest := args[index..];
      assert args[start..] == args[start..index] + rest;
      if !IsFlag(flag) || (flag in seen && flag !in f.repeated) ||
         (flag !in f.bare && (flag !in f.valued || index + 1 == |args| || !IsValue(args[index + 1])))
      {
        forall other ensures !Says(f, other, args[start..]) {
          Unreadable(f, given, rest, other);
        }
        return false, given;
      }
      seen := seen + {flag};
      ghost var g := if flag in f.bare then Bare(flag) else Valued(flag, args[index + 1]);
      SaysOneMore(f, given, args[start..index], g);
      FlagsOfOneMore(given, g);
      given := given + [g];
      var next := index + if flag in f.bare then 1 else 2;
      assert args[start..next] == args[start..index] + Words(g);
      index := next;
    }
    assert args[start..|args|] == args[start..];
    return true, given;
  }

  /** Where the next word cannot start a flag that fits and may appear, nothing reads the arguments. */
  lemma Unreadable(f: Flags, given: seq<Given>, rest: seq<string>, other: seq<Given>)
    requires Says(f, given, Unparse(given)) && |rest| > 0
    requires
      || !IsFlag(rest[0])
      || (rest[0] in FlagsOf(given) && rest[0] !in f.repeated)
      || (rest[0] !in f.bare && (rest[0] !in f.valued || |rest| == 1 || !IsValue(rest[1])))
    ensures !Says(f, other, Unparse(given) + rest)
  {
    if AllFit(f, other) && Unparse(other) == Unparse(given) + rest {
      ReadingContinues(f, other, given, rest);
      var later := other[|given|..];
      assert AllFit(f, later);
      FirstFlag(f, later, rest);
      assert Fits(f, later[0]) && later[0] == other[|given|];
      if rest[0] in FlagsOf(given) {
        var i :| 0 <= i < |given| && given[i].flag == rest[0];
        assert other[i] == given[i] && other[|given|].flag == rest[0];
      }
    }
  }

  // ---------- Looking up ----------

  datatype Lookup<T> = Found(value: T) | NeedsValue

  /** The values given for a flag, in order. */
  function ValuesOf(given: seq<Given>, flag: string): seq<string>
  {
    if |given| == 0 then []
    else (if given[0].Valued? && given[0].flag == flag then [given[0].value] else []) + ValuesOf(given[1..], flag)
  }

  function IndexOf(args: seq<string>, word: string): (k: nat)
    ensures k <= |args| && (k < |args| ==> args[k] == word)
  {
    if |args| == 0 then 0 else if args[0] == word then 0 else 1 + IndexOf(args[1..], word)
  }

  function OptionalFlag(args: seq<string>, flag: string): Lookup<Option<string>>
  {
    var k := IndexOf(args, flag);
    if k == |args| then Found(None)
    else if k + 1 == |args| || !IsValue(args[k + 1]) then NeedsValue
    else Found(Some(args[k + 1]))
  }

  /** What scanning for one flag finds, a value after each occurrence. */
  function Scan(args: seq<string>, flag: string): Lookup<seq<string>>
    decreases |args|
  {
    if |args| == 0 then Found([])
    else if args[0] != flag then Scan(args[1..], flag)
    else if |args| == 1 || !IsValue(args[1]) then NeedsValue
    else
      match Scan(args[2..], flag)
      case NeedsValue => NeedsValue
      case Found(values) => Found([args[1]] + values)
  }

  function Prefixed(values: seq<string>, r: Lookup<seq<string>>): Lookup<seq<string>>
  {
    match r
    case NeedsValue => NeedsValue
    case Found(more) => Found(values + more)
  }

  method FlagValues(args: seq<string>, flag: string) returns (r: Lookup<seq<string>>)
    ensures r == Scan(args, flag)
  {
    var values: seq<string> := [];
    var index := 0;
    assert args[0..] == args;
    NothingPrefixed(Scan(args, flag));
    while index < |args|
      invariant 0 <= index <= |args|
      invariant Scan(args, flag) == Prefixed(values, Scan(args[index..], flag))
    {
      ghost var rest := args[index..];
      assert rest[1..] == args[index + 1..];
      if args[index] == flag {
        if index + 1 == |args| || !IsValue(args[index + 1]) {
          return NeedsValue;
        }
        assert rest[2..] == args[index + 2..];
        Prefixes(values, [args[index + 1]], Scan(args[index + 2..], flag));
        values := values + [args[index + 1]];
        index := index + 2;
      } else {
        index := index + 1;
      }
    }
    assert args[index..] == [];
    assert values + [] == values;
    return Found(values);
  }

  lemma NothingPrefixed(r: Lookup<seq<string>>)
    ensures Prefixed([], r) == r
  {
    if r.Found? {
      assert [] + r.value == r.value;
    }
  }

  lemma Prefixes(a: seq<string>, b: seq<string>, r: Lookup<seq<string>>)
    ensures Prefixed(a, Prefixed(b, r)) == Prefixed(a + b, r)
  {
    if r.Found? {
      assert a + (b + r.value) == (a + b) + r.value;
    }
  }

  lemma ScanGiven(f: Flags, g: Given, rest: seq<string>, flag: string)
    requires Fits(f, g) && IsFlag(flag) && flag !in f.bare
    ensures Scan(Words(g) + rest, flag) ==
            if g.Valued? && g.flag == flag then Prefixed([g.value], Scan(rest, flag)) else Scan(rest, flag)
    ensures OptionalFlag(Words(g) + rest, flag) ==
            if g.flag == flag then Found(Some(g.value)) else OptionalFlag(rest, flag)
  {
    var args := Words(g) + rest;
    if g.Valued? {
      assert args[1..] == [g.value] + rest && args[1..][1..] == rest && args[2..] == rest;
      assert g.value != flag;
      assert IndexOf(args[1..], flag) == 1 + IndexOf(rest, flag);
    } else {
      assert args[1..] == rest;
    }
  }

  lemma {:induction false} ScanReads(f: Flags, given: seq<Given>, flag: string)
    requires AllFit(f, given) && IsFlag(flag) && flag !in f.bare
    ensures Scan(Unparse(given), flag) == Found(ValuesOf(given, flag))
  {
    if |given| > 0 {
      assert Fits(f, given[0]);
      ScanGiven(f, given[0], Unparse(given[1..]), flag);
      ScanReads(f, given[1..], flag);
      NothingPrefixed(Found(ValuesOf(given[1..], flag)));
    }
  }

  lemma {:induction false} IndexReads(f: Flags, given: seq<Given>, flag: string)
    requires AllFit(f, given) && IsFlag(flag) && flag !in f.bare
    ensures OptionalFlag(Unparse(given), flag) ==
            Found(if ValuesOf(given, flag) == [] then None else Some(ValuesOf(given, flag)[0]))
  {
    if |given| > 0 {
      assert Fits(f, given[0]);
      ScanGiven(f, given[0], Unparse(given[1..]), flag);
      IndexReads(f, given[1..], flag);
    }
  }

  lemma {:induction false} SkipWords(before: seq<string>, args: seq<string>, flag: string)
    requires flag !in before
    ensures Scan(before + args, flag) == Scan(args, flag)
    ensures OptionalFlag(before + args, flag) == OptionalFlag(args, flag)
  {
    if |before| == 0 {
      assert before + args == args;
    } else {
      SkipWords(before[1..], args, flag);
      assert (before + args)[1..] == before[1..] + args;
      assert flag !in before[1..];
    }
  }

  /**
    Once the check accepts, the two later scans agree with it and with each other: flagValues lists the
    values given for the flag, optionalFlag the first of them, and neither complains.
   */
  lemma ScansAgree(args: seq<string>, start: nat, f: Flags, given: seq<Given>, flag: string)
    requires start <= |args| && Says(f, given, args[start..])
    requires IsFlag(flag) && flag !in f.bare && flag !in args[..start]
    ensures Scan(args, flag) == Found(ValuesOf(given, flag))
    ensures OptionalFlag(args, flag) ==
            Found(if ValuesOf(given, flag) == [] then None else Some(ValuesOf(given, flag)[0]))
  {
    assert args == args[..start] + args[start..];
    SkipWords(args[..start], args[start..], flag);
    ScanReads(f, given, flag);
    IndexReads(f, given, flag);
  }

  lemma {:induction false} ValuesAreGiven(given: seq<Given>, flag: string)
    ensures (forall i :: 0 <= i < |given| ==> given[i].flag != flag) ==> ValuesOf(given, flag) == []
  {
    if |given| > 0 {
      ValuesAreGiven(given[1..], flag);
      assert forall i :: 0 <= i < |given[1..]| ==> given[1..][i] == given[i + 1];
    }
  }

  lemma {:induction false} OneValue(f: Flags, given: seq<Given>, flag: string)
    requires NoRepeats(f, given) && flag !in f.repeated
    ensures |ValuesOf(given, flag)| <= 1
  {
    if |given| > 0 {
      assert forall i :: 0 <= i < |given[1..]| ==> given[1..][i] == given[i + 1];
      if given[0].flag == flag {
        ValuesAreGiven(given[1..], flag);
      } else {
        OneValue(f, given[1..], flag);
      }
    }
  }

  /** A flag that may not be repeated has at most one value, so nothing is dropped by reading the first. */
  lemma NothingIsDropped(args: seq<string>, start: nat, f: Flags, given: seq<Given>, flag: string)
    requires start <= |args| && Says(f, given, args[start..])
    requires IsFlag(flag) && flag !in f.bare && flag !in args[..start] && flag !in f.repeated
    ensures var first := OptionalFlag(args, flag);
            first.Found? && Scan(args, flag) == Found(if first.value.None? then [] else [first.value.value])
  {
    ScansAgree(args, start, f, given, flag);
    OneValue(f, given, flag);
    var values := ValuesOf(given, flag);
    assert |values| == 1 ==> values == [values[0]];
  }
}
