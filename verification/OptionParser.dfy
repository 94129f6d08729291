/** The command-line option parser. The arguments are decoded into events that do not depend on
    what earlier arguments did; applying the events in order is what the parser's loop does. */
module OptionParser {
  import opened Options

  const NO_SHORT_NAME := '\0'

  // An option without a value, or one whose values are read by `reader`, which may refuse.
  datatype Opt<V> =
    | Flag(shortName: char, has: bool)
    | Valued(shortName: char, need: bool, has: bool, actual: V, reader: string -> Option<V>)
  {
    predicate Missing() { Valued? && need && !has }
  }

  // What the arguments are decoded against; parsing changes none of it.
  datatype Shape = Shape(defined: set<string>, valued: set<string>, lookup: map<char, string>)

  datatype Event =
    | SetTo(name: string, value: string)
    | Set(name: string)
    | Complaint(msg: string)
    | Other(arg: string)

  datatype State<V> = State(options: map<string, Opt<V>>, errors: seq<string>, others: seq<string>)

  // ---------- decoding ----------

  function Find(s: string, c: char, from: nat): (r: nat)
    requires from <= |s|
    ensures from <= r <= |s|
    ensures r < |s| ==> s[r] == c
    ensures forall i :: from <= i < r ==> s[i] != c
    decreases |s| - from
  {
    if from == |s| || s[from] == c then from else Find(s, c, from + 1)
  }

  predicate IsLong(arg: string) { |arg| >= 2 && arg[0] == '-' && arg[1] == '-' }

  // A letter of a cluster other than the last.
  function LetterEvent(sh: Shape, c: char): Event {
    if c !in sh.lookup then Complaint("undefined short option: -" + [c])
    else if sh.lookup[c] == "" then Complaint("ambiguous short option: -" + [c])
    else Set(sh.lookup[c])
  }

  function LetterEvents(sh: Shape, letters: string): seq<Event> {
    if letters == "" then []
    else LetterEvents(sh, letters[..|letters| - 1]) + [LetterEvent(sh, letters[|letters| - 1])]
  }

  // The last letter may take the next argument as its value.
  function LastLetter(sh: Shape, c: char, rest: seq<string>): (seq<Event>, nat) {
    if c in sh.lookup && sh.lookup[c] != "" && rest != [] && sh.lookup[c] in sh.valued
    then ([SetTo(sh.lookup[c], rest[0])], 2)
    else ([LetterEvent(sh, c)], 1)
  }

  // The events of the first argument, and how many arguments it uses up.
  function First(sh: Shape, args: seq<string>): (r: (seq<Event>, nat))
    requires args != []
    ensures 1 <= r.1 <= |args|
  {
    var arg := args[0];
    if IsLong(arg) then
      var p := Find(arg, '=', 2);
      if p < |arg| then ([SetTo(arg[2..p], arg[p + 1..])], 1)
      else
        var name := arg[2..];
        if name !in sh.defined then ([Complaint("undefined option: --" + name)], 1)
        else if name in sh.valued then
          if |args| == 1 then ([Complaint("option needs value: --" + name)], 1)
          else ([SetTo(name, args[1])], 2)
        else ([Set(name)], 1)
    else if arg != "" && arg[0] == '-' then
      if |arg| == 1 then ([], 1)
      else
        var (es, n) := LastLetter(sh, arg[|arg| - 1], args[1..]);
        (LetterEvents(sh, arg[1..|arg| - 1]) + es, n)
    else ([Other(arg)], 1)
  }

  function Decode(sh: Shape, args: seq<string>): seq<Event>
    decreases |args|
  {
    if args == [] then [] else First(sh, args).0 + Decode(sh, args[First(sh, args).1..])
  }

  // ---------- applying ----------

  function SetOptionTo<V>(st: State<V>, name: string, value: string): State<V> {
    if name !in st.options then st.(errors := st.errors + ["undefined option: --" + name])
    else
      var invalid := st.(errors := st.errors + ["option value is invalid: --" + name + "=" + value]);
      match st.options[name]
      case Flag(_, _) => invalid
      case Valued(_, _, _, _, reader) =>
        match reader(value)
        case None => invalid
        case Some(v) => st.(options := st.options[name := st.options[name].(has := true, actual := v)])
  }

  function SetOption<V>(st: State<V>, name: string): State<V> {
    if name !in st.options then st.(errors := st.errors + ["undefined option: --" + name])
    else if st.options[name].Valued? then st.(errors := st.errors + ["option needs value: --" + name])
    else st.(options := st.options[name := Flag(st.options[name].shortName, true)])
  }

  function Apply<V>(st: State<V>, e: Event): State<V> {
    match e
    case SetTo(name, value) => SetOptionTo(st, name, value)
    case Set(name) => SetOption(st, name)
    case Complaint(msg) => st.(errors := st.errors + [msg])
    case Other(arg) => st.(others := st.others + [arg])
  }

  function ApplyAll<V>(st: State<V>, es: seq<Event>): State<V> {
    if es == [] then st else Apply(ApplyAll(st, es[..|es| - 1]), es[|es| - 1])
  }

  lemma {:induction false} ApplyConcat<V>(st: State<V>, a: seq<Event>, b: seq<Event>)
    ensures ApplyAll(st, a + b) == ApplyAll(ApplyAll(st, a), b)
  {
    if b == [] {
      assert a + b == a;
    } else {
      assert (a + b)[..|a + b| - 1] == a + b[..|b| - 1];
      ApplyConcat(st, a, b[..|b| - 1]);
    }
  }

  // ---------- the whole of parse ----------

  // The table of short names, or the first short name used twice, in the order of the options.
  datatype LookupResult = Table(lookup: map<char, string>) | Ambiguous(c: char)

  function LookupOf<V>(options: map<string, Opt<V>>, names: seq<string>): LookupResult {
    if names == [] then Table(map[])
    else
      match LookupOf(options, names[..|names| - 1])
      case Ambiguous(c) => Ambiguous(c)
      case Table(lookup) =>
        var name := names[|names| - 1];
        if name == "" || name !in options || options[name].shortName == NO_SHORT_NAME then Table(lookup)
        else if options[name].shortName in lookup then Ambiguous(options[name].shortName)
        else Table(lookup[options[name].shortName := name])
  }

  function ShapeOf<V>(options: map<string, Opt<V>>, lookup: map<char, string>): Shape {
    Shape(options.Keys, (set name | name in options && options[name].Valued?), lookup)
  }

  function MissingErrors<V>(options: map<string, Opt<V>>, names: seq<string>): seq<string> {
    if names == [] then []
    else
      var name := names[|names| - 1];
      MissingErrors(options, names[..|names| - 1]) +
      if name in options && options[name].Missing() then ["need option: --" + name] else []
  }

  function ParseSpec<V>(options: map<string, Opt<V>>, names: seq<string>, args: seq<string>): State<V> {
    if args == [] then State(options, ["argument number must be longer than 0"], [])
    else
      match LookupOf(options, names)
      case Ambiguous(c) => State(options, ["short option '" + [c] + "' is ambiguous"], [])
      case Table(lookup) =>
        var st := ApplyAll(State(options, [], []), Decode(ShapeOf(options, lookup), args[1..]));
        st.(errors := st.errors + MissingErrors(st.options, names))
  }

  // Applying events never changes which options there are and which of them take values.
  lemma ShapeIsKept<V>(st: State<V>, lookup: map<char, string>)
    ensures forall e :: ShapeOf(Apply(st, e).options, lookup) == ShapeOf(st.options, lookup)
  {
  }

  // Where the arguments from i on lead.
  function Remaining<V>(st: State<V>, sh: Shape, args: seq<string>, i: nat): State<V>
    requires i <= |args|
  {
    ApplyAll(st, Decode(sh, args[i..]))
  }

  lemma RemainingStarts<V>(st: State<V>, sh: Shape, args: seq<string>)
    ensures Remaining(st, sh, args, 0) == ApplyAll(st, Decode(sh, args))
  {
    assert args[0..] == args;
  }

  lemma RemainingEnds<V>(st: State<V>, sh: Shape, args: seq<string>)
    ensures Remaining(st, sh, args, |args|) == st
  {
    assert args[|args|..] == [];
    assert Decode(sh, []) == [];
  }

  lemma ApplyParts<V>(st: State<V>, es: seq<Event>, a: seq<Event>, b: seq<Event>)
    requires es == a + b
    ensures ApplyAll(st, es) == ApplyAll(ApplyAll(st, a), b)
  {
    ApplyConcat(st, a, b);
  }

  lemma DecodeFirst(sh: Shape, args: seq<string>, i: nat)
    requires i < |args|
    ensures var first := First(sh, args[i..]);
            i + first.1 <= |args| && Decode(sh, args[i..]) == first.0 + Decode(sh, args[i + first.1..])
  {
    var n := First(sh, args[i..]).1;
    assert args[i..][n..] == args[i + n..];
  }

  lemma ApplyFirst<V>(st: State<V>, sh: Shape, args: seq<string>, i: nat)
    requires i < |args|
    ensures var first := First(sh, args[i..]);
            && i + first.1 <= |args|
            && Remaining(st, sh, args, i) == Remaining(ApplyAll(st, first.0), sh, args, i + first.1)
  {
    var first := First(sh, args[i..]);
    DecodeFirst(sh, args, i);
    ApplyParts(st, Decode(sh, args[i..]), first.0, Decode(sh, args[i + first.1..]));
  }

  lemma ApplyOne<V>(st: State<V>)
    ensures forall e :: ApplyAll(st, [e]) == Apply(st, e)
  {
    forall e ensures ApplyAll(st, [e]) == Apply(st, e) {
      assert [e][..0] == [];
    }
  }

  lemma {:induction false} AmbiguityStays<V>(options: map<string, Opt<V>>, names: seq<string>, n: nat, c: char)
    requires n <= |names| && LookupOf(options, names[..n]) == Ambiguous(c)
    ensures LookupOf(options, names) == Ambiguous(c)
    decreases |names|
  {
    if n == |names| {
      assert names[..n] == names;
    } else {
      assert names[..|names| - 1][..n] == names[..n];
      AmbiguityStays(options, names[..|names| - 1], n, c);
    }
  }

  class Parser<V> {
    const names: seq<string>  // the option names in the order of the option map
    var options: map<string, Opt<V>>
    var progName: string
    var others: seq<string>
    var errors: seq<string>

    ghost predicate Valid()
      reads this
    {
      && (forall i :: 0 <= i < |names| ==> names[i] in options)
      && (forall name :: name in options ==> name in names)
    }

    ghost function View(): State<V>
      reads this
    {
      State(options, errors, others)
    }

    constructor (names: seq<string>, options: map<string, Opt<V>>)
      requires forall i :: 0 <= i < |names| ==> names[i] in options
      requires forall name :: name in options ==> name in names
      ensures Valid() && this.names == names && View() == State(options, [], []) && progName == ""
    {
      this.names := names;
      this.options := options;
      progName := "";
      others, errors := [], [];
    }

    method SetOptionValue(name: string, value: string)
      requires Valid()
      modifies `options, `errors
      ensures Valid() && View() == old(SetOptionTo(View(), name, value))
    {
      if name !in options {
        errors := errors + ["undefined option: --" + name];
        return;
      }
      var read := if options[name].Valued? then options[name].reader(value) else None;
      if read.None? {
        errors := errors + ["option value is invalid: --" + name + "=" + value];
        return;
      }
      options := options[name := options[name].(has := true, actual := read.value)];
    }

    method SetOptionFlag(name: string)
      requires Valid()
      modifies `options, `errors
      ensures Valid() && View() == old(SetOption(View(), name))
    {
      if name !in options {
        errors := errors + ["undefined option: --" + name];
        return;
      }
      if options[name].Valued? {
        errors := errors + ["option needs value: --" + name];
        return;
      }
      options := options[name := Flag(options[name].shortName, true)];
    }

    method BuildLookup() returns (ok: bool, lookup: map<char, string>)
      requires Valid()
      modifies `errors
      ensures match LookupOf(options, names)
              case Table(t) => ok && lookup == t && errors == old(errors)
              case Ambiguous(c) => !ok && errors == old(errors) + ["short option '" + [c] + "' is ambiguous"]
    {
      lookup := map[];
      var i := 0;
      while i < |names|
        invariant 0 <= i <= |names| && errors == old(errors)
        invariant LookupOf(options, names[..i]) == Table(lookup)
      {
        assert names[..i + 1][..i] == names[..i];
        var initial := options[names[i]].shortName;
        if names[i] != "" && initial != NO_SHORT_NAME {
          if initial in lookup {
            errors := errors + ["short option '" + [initial] + "' is ambiguous"];
            AmbiguityStays(options, names, i + 1, initial);
            return false, lookup;
          }
          lookup := lookup[initial := names[i]];
        }
        i := i + 1;
      }
      assert names[..i] == names;
      ok := true;
    }

    // An argument that starts with two dashes; `rest` is what follows it.
    method ParseLong(ghost sh: Shape, arg: string, rest: seq<string>) returns (used: nat)
      requires Valid() && IsLong(arg) && sh == ShapeOf(options, sh.lookup)
      modifies `options, `errors
      ensures Valid() && sh == ShapeOf(options, sh.lookup)
      ensures used == First(sh, [arg] + rest).1
      ensures View() == ApplyAll(old(View()), First(sh, [arg] + rest).0)
    {
      ApplyOne(View());
      ShapeIsKept(View(), sh.lookup);
      var p := Find(arg, '=', 2);
      used := 1;
      if p < |arg| {
        SetOptionValue(arg[2..p], arg[p + 1..]);
        return;
      }
      var name := arg[2..];
      if name !in options {
        errors := errors + ["undefined option: --" + name];
        return;
      }
      if options[name].Valued? {
        if |rest| == 0 {
          errors := errors + ["option needs value: --" + name];
        } else {
          used := 2;
          SetOptionValue(name, rest[0]);
        }
      } else {
        SetOptionFlag(name);
      }
    }

    // One letter of a cluster that cannot take a value.
    method ParseLetter(lookup: map<char, string>, c: char)
      requires Valid()
      modifies `options, `errors
      ensures Valid() && ShapeOf(options, lookup) == old(ShapeOf(options, lookup))
      ensures View() == Apply(old(View()), LetterEvent(old(ShapeOf(options, lookup)), c))
    {
      ShapeIsKept(View(), lookup);
      if c !in lookup {
        errors := errors + ["undefined short option: -" + [c]];
        return;
      }
      if lookup[c] == "" {
        errors := errors + ["ambiguous short option: -" + [c]];
        return;
      }
      SetOptionFlag(lookup[c]);
    }

    // The last letter of a cluster, which may take the next argument.
    method ParseLast(lookup: map<char, string>, last: char, rest: seq<string>) returns (used: nat)
      requires Valid()
      modifies `options, `errors
      ensures Valid() && ShapeOf(options, lookup) == old(ShapeOf(options, lookup))
      ensures used == LastLetter(old(ShapeOf(options, lookup)), last, rest).1
      ensures View() == ApplyAll(old(View()), LastLetter(old(ShapeOf(options, lookup)), last, rest).0)
    {
      ApplyOne(View());
      ShapeIsKept(View(), lookup);
      if last in lookup && lookup[last] != "" && |rest| > 0 && lookup[last] in options && options[lookup[last]].Valued? {
        SetOptionValue(lookup[last], rest[0]);
        used := 2;
      } else {
        ParseLetter(lookup, last);
        used := 1;
      }
    }

    // A cluster of short options, without its dash.
    method ParseShort(lookup: map<char, string>, letters: string, rest: seq<string>) returns (used: nat)
      requires Valid() && letters != ""
      modifies `options, `errors
      ensures Valid() && ShapeOf(options, lookup) == old(ShapeOf(options, lookup))
      ensures var (es, n) := LastLetter(old(ShapeOf(options, lookup)), letters[|letters| - 1], rest);
              && used == n
              && View() == ApplyAll(old(View()), LetterEvents(old(ShapeOf(options, lookup)), letters[..|letters| - 1]) + es)
    {
      ghost var sh := ShapeOf(options, lookup);
      ghost var first := View();
      var last := letters[0];
      var j := 1;
      while j < |letters|
        invariant 1 <= j <= |letters| && last == letters[j - 1]
        invariant Valid() && ShapeOf(options, lookup) == sh && others == first.others
        invariant View() == ApplyAll(first, LetterEvents(sh, letters[..j - 1]))
      {
        last := letters[j];
        assert letters[..j][..j - 1] == letters[..j - 1];
        ParseLetter(lookup, letters[j - 1]);
        j := j + 1;
      }
      ghost var es := LastLetter(sh, last, rest).0;
      ApplyConcat(first, LetterEvents(sh, letters[..|letters| - 1]), es);
      used := ParseLast(lookup, last, rest);
    }

    // One turn of the main loop.
    method ParseArgument(lookup: map<char, string>, args: seq<string>, ghost sh: Shape) returns (used: nat)
      requires Valid() && args != [] && ShapeOf(options, lookup) == sh
      modifies `options, `errors, `others
      ensures Valid() && ShapeOf(options, lookup) == sh
      ensures used == First(sh, args).1
      ensures View() == ApplyAll(old(View()), First(sh, args).0)
    {
      var arg := args[0];
      assert args == [arg] + args[1..];
      ApplyOne(View());
      if IsLong(arg) {
        used := ParseLong(sh, arg, args[1..]);
      } else if arg != "" && arg[0] == '-' {
        if |arg| == 1 {
          return 1;
        }
        assert arg[1..][..|arg[1..]| - 1] == arg[1..|arg| - 1];
        used := ParseShort(lookup, arg[1..], args[1..]);
      } else {
        others := others + [arg];
        used := 1;
      }
    }

    // Before the arguments from i on have been dealt with, they lead to the target.
    ghost predicate OnTheWay(lookup: map<char, string>, sh: Shape, args: seq<string>, i: nat, target: State<V>)
      requires i <= |args|
      reads this
    {
      Valid() && ShapeOf(options, lookup) == sh && Remaining(View(), sh, args, i) == target
    }

    // One turn of the main loop, seen from the arguments that remain.
    method ParseTurn(lookup: map<char, string>, args: seq<string>, i: nat, ghost sh: Shape, ghost target: State<V>)
      returns (used: nat)
      requires i < |args| && OnTheWay(lookup, sh, args, i, target)
      modifies `options, `errors, `others
      ensures 0 < used && i + used <= |args| && OnTheWay(lookup, sh, args, i + used, target)
    {
      ApplyFirst(View(), sh, args, i);
      used := ParseArgument(lookup, args[i..], sh);
    }

    // The main loop.
    method ParseArguments(lookup: map<char, string>, args: seq<string>)
      requires Valid()
      modifies `options, `errors, `others
      ensures Valid() && View() == Remaining(old(View()), old(ShapeOf(options, lookup)), args, 0)
    {
      ghost var sh := ShapeOf(options, lookup);
      ghost var target := Remaining(View(), sh, args, 0);
      var i := 0;
      while i < |args|
        invariant 0 <= i <= |args| && OnTheWay(lookup, sh, args, i, target)
      {
        var used := ParseTurn(lookup, args, i, sh, target);
        i := i + used;
      }
      RemainingEnds(View(), sh, args);
    }

    method AddMissing()
      requires Valid()
      modifies `errors
      ensures errors == old(errors) + MissingErrors(options, names)
    {
      var i := 0;
      while i < |names|
        invariant 0 <= i <= |names|
        invariant errors == old(errors) + MissingErrors(options, names[..i])
      {
        assert names[..i + 1][..i] == names[..i];
        if options[names[i]].Missing() {
          errors := errors + ["need option: --" + names[i]];
        }
        i := i + 1;
      }
      assert names[..i] == names;
    }

    method Parse(args: seq<string>) returns (ok: bool)
      requires Valid()
      modifies this
      ensures Valid() && View() == ParseSpec(old(options), names, args)
      ensures ok <==> errors == []
      ensures args == [] ==> errors == ["argument number must be longer than 0"]
    {
      errors, others := [], [];
      if |args| < 1 {
        errors := errors + ["argument number must be longer than 0"];
        return false;
      }
      if progName == "" {
        progName := args[0];
      }
      var unique, lookup := BuildLookup();
      if !unique {
        return false;
      }
      RemainingStarts(View(), ShapeOf(options, lookup), args[1..]);
      ParseArguments(lookup, args[1..]);
      AddMissing();
      ok := |errors| == 0;
    }
  }
}
