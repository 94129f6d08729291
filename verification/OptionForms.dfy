/** Which command lines mean the same to the option parser, and what a successful parse says. */
module OptionForms {
  import opened Options
  import opened OptionParser

  // ---------- replacing the tail of a command line ----------

  // The parser, started on `args`, comes to look at the argument at position k as an option, and
  // not as the value of the option before it.
  predicate Reaches(sh: Shape, args: seq<string>, k: nat)
    decreases |args|
  {
    if k == 0 then true
    else if args == [] || First(sh, args).1 > k then false
    else Reaches(sh, args[First(sh, args).1..], k - First(sh, args).1)
  }

  // Up to such a position it does not matter what comes after, as long as something does.
  lemma SameFirst(sh: Shape, pre: seq<string>, x: seq<string>, y: seq<string>)
    requires pre != [] && x != [] && y != []
    requires First(sh, pre + x).1 <= |pre|
    ensures First(sh, pre + y) == First(sh, pre + x)
  {
    var a, b := pre + x, pre + y;
    assert a[0] == b[0];
    assert |pre| > 1 ==> a[1] == b[1] && a[1..][0] == a[1] && b[1..][0] == b[1];
    assert |pre| == 1 ==> a[1] == x[0];
  }

  // A position that is not reached is used up as the value of the option before it.
  lemma TakenAsValue(sh: Shape, p: string, x: seq<string>, y: seq<string>)
    requires x != [] && y != [] && First(sh, [p] + x).1 > 1
    ensures First(sh, [p] + x).1 == First(sh, [p] + y).1 == 2
    ensures exists es: seq<Event>, name ::
              First(sh, [p] + x).0 == es + [SetTo(name, x[0])] && First(sh, [p] + y).0 == es + [SetTo(name, y[0])]
  {
    var a, b := [p] + x, [p] + y;
    assert a[0] == b[0] == p && a[1..] == x && b[1..] == y && a[1] == x[0] && b[1] == y[0];
    if IsLong(p) {
      assert First(sh, a).0 == [] + [SetTo(p[2..], x[0])] && First(sh, b).0 == [] + [SetTo(p[2..], y[0])];
    } else {
      var front, name := LetterEvents(sh, p[1..|p| - 1]), sh.lookup[p[|p| - 1]];
      assert First(sh, a).0 == front + [SetTo(name, x[0])] && First(sh, b).0 == front + [SetTo(name, y[0])];
    }
  }

  lemma PrefixCancels<T>(a: seq<T>, b: seq<T>, c: seq<T>)
    ensures a + b == a + c <==> b == c
  {
    if a + b == a + c {
      assert b == (a + b)[|a|..];
    }
  }

  lemma ValuesApart(sh: Shape, a: seq<string>, b: seq<string>, v: string, w: string)
    requires a != [] && b != [] && v != w
    requires exists es: seq<Event>, name ::
               First(sh, a).0 == es + [SetTo(name, v)] && First(sh, b).0 == es + [SetTo(name, w)]
    ensures Decode(sh, a) != Decode(sh, b)
  {
    var es: seq<Event>, name :| First(sh, a).0 == es + [SetTo(name, v)] && First(sh, b).0 == es + [SetTo(name, w)];
    assert Decode(sh, a)[|es|] == SetTo(name, v) && Decode(sh, b)[|es|] == SetTo(name, w);
  }

  // Two tails that begin differently decode alike after some arguments exactly if they decode
  // alike by themselves and the parser looks at their first argument as an option.
  lemma {:induction false} TailDecides(sh: Shape, pre: seq<string>, x: seq<string>, y: seq<string>)
    requires x != [] && y != [] && x[0] != y[0]
    ensures Decode(sh, pre + x) == Decode(sh, pre + y) <==>
            Reaches(sh, pre + x, |pre|) && Decode(sh, x) == Decode(sh, y)
    decreases |pre|
  {
    if pre == [] {
      assert pre + x == x && pre + y == y;
    } else if First(sh, pre + x).1 <= |pre| {
      SameFirst(sh, pre, x, y);
      var (es, n) := First(sh, pre + x);
      assert (pre + x)[n..] == pre[n..] + x && (pre + y)[n..] == pre[n..] + y;
      TailDecides(sh, pre[n..], x, y);
      PrefixCancels(es, Decode(sh, pre[n..] + x), Decode(sh, pre[n..] + y));
    } else {
      assert pre == [pre[0]];
      TakenAsValue(sh, pre[0], x, y);
      ValuesApart(sh, pre + x, pre + y, x[0], y[0]);
    }
  }

  // ---------- long options ----------

  lemma {:induction false} FindSkips(s: string, t: string, c: char, from: nat)
    requires from <= |s| && forall i :: from <= i < |s| ==> s[i] != c
    ensures Find(s + [c] + t, c, from) == |s|
    ensures Find(s, c, from) == |s|
    decreases |s| - from
  {
    if from < |s| {
      FindSkips(s, t, c, from + 1);
    }
  }

  // `--name=value` and `--name value` decode alike for an option that takes a value.
  lemma LongFormsDecodeAlike(sh: Shape, name: string, value: string, post: seq<string>)
    requires name in sh.defined && name in sh.valued && '=' !in name
    ensures Decode(sh, ["--" + name + "=" + value] + post) == Decode(sh, ["--" + name, value] + post)
  {
    var joined, split := "--" + name + "=" + value, "--" + name;
    FindSkips(split, value, '=', 2);
    assert joined == split + ['='] + value;
    assert joined[2..|split|] == name && joined[|split| + 1..] == value && split[2..] == name;
    var a, b := [joined] + post, [split, value] + post;
    assert a[0] == joined && b[0] == split && b[1] == value && IsLong(joined) && IsLong(split);
    assert First(sh, a) == ([SetTo(name, value)], 1) && First(sh, b) == ([SetTo(name, value)], 2);
    assert a[1..] == post && b[2..] == post;
  }

  // ---------- clusters of short options ----------

  function Separate(letters: string): seq<string> {
    if letters == "" then [] else [['-', letters[0]]] + Separate(letters[1..])
  }

  predicate TakesValue(sh: Shape, c: char) {
    c in sh.lookup && sh.lookup[c] in sh.valued
  }

  lemma {:induction false} LettersUncons(sh: Shape, letters: string)
    requires letters != ""
    ensures LetterEvents(sh, letters) == [LetterEvent(sh, letters[0])] + LetterEvents(sh, letters[1..])
  {
    var n := |letters| - 1;
    if n > 0 {
      LettersUncons(sh, letters[..n]);
      assert letters[..n][1..] == letters[1..][..n - 1];
    } else {
      assert letters[..0] == "" && letters[1..] == "";
    }
  }

  lemma ClusterFirst(sh: Shape, letters: string, post: seq<string>)
    requires letters != "" && letters[0] != '-'
    ensures var n := |letters| - 1;
            var (es, used) := LastLetter(sh, letters[n], post);
            First(sh, ["-" + letters] + post) == (LetterEvents(sh, letters[..n]) + es, used)
  {
    var args := ["-" + letters] + post;
    var arg := args[0];
    assert arg == "-" + letters && args[1..] == post && !IsLong(arg);
    assert arg[1..|arg| - 1] == letters[..|letters| - 1] && arg[|arg| - 1] == letters[|letters| - 1];
  }

  lemma Regroup<T>(x: T, a: seq<T>, b: seq<T>, c: seq<T>)
    ensures ([x] + a) + b + c == [x] + (a + b + c)
  {
  }

  lemma OneLetter(sh: Shape, c: char, rest: seq<string>)
    requires c != '-' && !TakesValue(sh, c)
    ensures First(sh, [['-', c]] + rest) == ([LetterEvent(sh, c)], 1)
  {
    var args := [['-', c]] + rest;
    assert args[0] == ['-', c] && args[1..] == rest;
    assert args[0][1..1] == "";
    assert LetterEvents(sh, "") + [LetterEvent(sh, c)] == [LetterEvent(sh, c)];
  }

  // A cluster's first letter that takes no value can be given its own argument.
  lemma FirstLetterApart(sh: Shape, letters: string, post: seq<string>)
    requires |letters| >= 2 && letters[0] != '-' && letters[1] != '-' && !TakesValue(sh, letters[0])
    ensures Decode(sh, ["-" + letters] + post) == Decode(sh, [['-', letters[0]]] + (["-" + letters[1..]] + post))
  {
    var n := |letters| - 1;
    var whole, rest := ["-" + letters] + post, ["-" + letters[1..]] + post;
    var (es, used) := LastLetter(sh, letters[n], post);
    var es' := LetterEvents(sh, letters[1..n]);
    ClusterFirst(sh, letters, post);
    ClusterFirst(sh, letters[1..], post);
    assert letters[1..][..n - 1] == letters[1..n] && letters[1..][n - 1] == letters[n];
    LettersUncons(sh, letters[..n]);
    assert letters[..n][1..] == letters[1..n];
    OneLetter(sh, letters[0], rest);
    assert ([['-', letters[0]]] + rest)[1..] == rest && whole[used..] == rest[used..];
    Regroup(LetterEvent(sh, letters[0]), es', es, Decode(sh, whole[used..]));
  }

  lemma SingleLetter(letters: string)
    requires |letters| == 1
    ensures Separate(letters) == ["-" + letters]
  {
    assert letters == [letters[0]] && letters[1..] == "" && Separate("") == [];
    assert "-" + letters == ['-', letters[0]];
  }

  lemma SeparateFirst(letters: string, post: seq<string>)
    requires letters != ""
    ensures Separate(letters) + post == [['-', letters[0]]] + (Separate(letters[1..]) + post)
  {
  }

  lemma LetterInFront(sh: Shape, c: char, x: seq<string>, y: seq<string>)
    requires c != '-' && !TakesValue(sh, c) && Decode(sh, x) == Decode(sh, y)
    ensures Decode(sh, [['-', c]] + x) == Decode(sh, [['-', c]] + y)
  {
    OneLetter(sh, c, x);
    OneLetter(sh, c, y);
    assert ([['-', c]] + x)[1..] == x && ([['-', c]] + y)[1..] == y;
  }

  // A cluster means the same as its letters one by one, if no letter is a dash and no letter
  // before the last takes a value.
  lemma {:induction false} ClusterDecodesAlike(sh: Shape, letters: string, post: seq<string>)
    requires letters != "" && '-' !in letters
    requires forall i :: 0 <= i < |letters| - 1 ==> !TakesValue(sh, letters[i])
    ensures Decode(sh, ["-" + letters] + post) == Decode(sh, Separate(letters) + post)
  {
    if |letters| == 1 {
      SingleLetter(letters);
    } else {
      assert forall i :: 0 <= i < |letters[1..]| ==> letters[1..][i] == letters[i + 1];
      ClusterDecodesAlike(sh, letters[1..], post);
      LetterInFront(sh, letters[0], ["-" + letters[1..]] + post, Separate(letters[1..]) + post);
      FirstLetterApart(sh, letters, post);
      SeparateFirst(letters, post);
    }
  }

  // ---------- the normal form ----------

  ghost predicate ShapeIs<V>(options: map<string, Opt<V>>, names: seq<string>, sh: Shape) {
    match LookupOf(options, names)
    case Ambiguous(_) => false
    case Table(lookup) => sh == ShapeOf(options, lookup)
  }

  // Replacing a joined long option by its separate form changes no event of the command line
  // exactly if the parser looks at it as an option; then the errors, the rest and all options
  // stay the same.
  lemma LongNormalForm<V>(options: map<string, Opt<V>>, names: seq<string>, sh: Shape, prog: string,
                          pre: seq<string>, name: string, value: string, post: seq<string>)
    requires ShapeIs(options, names, sh) && name in options && options[name].Valued? && '=' !in name
    ensures var x, y := pre + (["--" + name + "=" + value] + post), pre + (["--" + name, value] + post);
            && (Decode(sh, x) == Decode(sh, y) <==> Reaches(sh, x, |pre|))
            && (Reaches(sh, x, |pre|) ==>
                  ParseSpec(options, names, [prog] + x) == ParseSpec(options, names, [prog] + y))
  {
    var x, y := ["--" + name + "=" + value] + post, ["--" + name, value] + post;
    LongFormsDecodeAlike(sh, name, value, post);
    assert |x[0]| > |y[0]|;
    TailDecides(sh, pre, x, y);
    assert ([prog] + (pre + x))[1..] == pre + x && ([prog] + (pre + y))[1..] == pre + y;
  }

  // The same for splitting a cluster of short options; a single letter is split already.
  lemma ClusterNormalForm<V>(options: map<string, Opt<V>>, names: seq<string>, sh: Shape, prog: string,
                             pre: seq<string>, letters: string, post: seq<string>)
    requires ShapeIs(options, names, sh) && letters != "" && '-' !in letters
    requires forall i :: 0 <= i < |letters| - 1 ==> !TakesValue(sh, letters[i])
    ensures var x, y := pre + (["-" + letters] + post), pre + (Separate(letters) + post);
            && (Decode(sh, x) == Decode(sh, y) <==> |letters| == 1 || Reaches(sh, x, |pre|))
            && (Reaches(sh, x, |pre|) ==>
                  ParseSpec(options, names, [prog] + x) == ParseSpec(options, names, [prog] + y))
  {
    var x, y := ["-" + letters] + post, Separate(letters) + post;
    ClusterDecodesAlike(sh, letters, post);
    SeparateFirst(letters, post);
    if |letters| == 1 {
      SingleLetter(letters);
    } else {
      assert x[0] == "-" + letters && y[0] == ['-', letters[0]] && |x[0]| > |y[0]|;
      TailDecides(sh, pre, x, y);
    }
    assert ([prog] + (pre + x))[1..] == pre + x && ([prog] + (pre + y))[1..] == pre + y;
  }

  lemma JoinedFormEvents(sh: Shape)
    requires "out" in sh.defined && "out" in sh.valued
    ensures Decode(sh, ["--out", "--x=1"]) == [SetTo("out", "--x=1")]
    ensures Decode(sh, ["--out", "--x", "1"]) == [SetTo("out", "--x"), Other("1")]
  {
    var a, b := ["--out", "--x=1"], ["--out", "--x", "1"];
    FindSkips("--out", "", '=', 2);
    assert a[0][2..] == "out" && First(sh, a) == ([SetTo("out", "--x=1")], 2) && a[2..] == [];
    assert b[0][2..] == "out" && First(sh, b) == ([SetTo("out", "--x")], 2) && b[2..] == ["1"];
    assert First(sh, ["1"]) == ([Other("1")], 1) && ["1"][1..] == [];
  }

  // A joined option after an option that takes a value is that value, and splitting it changes
  // what the parse returns: one more argument is left over.
  lemma JoinedFormAsValue<V>(options: map<string, Opt<V>>, names: seq<string>, sh: Shape)
    requires ShapeIs(options, names, sh) && "out" in options && options["out"].Valued?
    ensures ParseSpec(options, names, ["prog", "--out", "--x=1"]).others == []
    ensures ParseSpec(options, names, ["prog", "--out", "--x", "1"]).others == ["1"]
  {
    JoinedFormEvents(sh);
    assert ["prog", "--out", "--x=1"][1..] == ["--out", "--x=1"];
    assert ["prog", "--out", "--x", "1"][1..] == ["--out", "--x", "1"];
    var start := State(options, [], []);
    ApplyOne(start);
    var es := [SetTo("out", "--x"), Other("1")];
    assert es[..1] == [SetTo("out", "--x")];
    assert ApplyAll(start, es) == Apply(ApplyAll(start, es[..1]), Other("1"));
  }

  // ---------- what success means ----------

  // An event that adds no error.
  predicate Fine<V>(options: map<string, Opt<V>>, e: Event) {
    match e
    case SetTo(name, value) => name in options && options[name].Valued? && options[name].reader(value).Some?
    case Set(name) => name in options && options[name].Flag?
    case Complaint(_) => false
    case Other(_) => true
  }

  // The value an option is given last, if any.
  function LastValue(es: seq<Event>, name: string): Option<string> {
    if es == [] then None
    else
      var e := es[|es| - 1];
      if e.SetTo? && e.name == name then Some(e.value) else LastValue(es[..|es| - 1], name)
  }

  // Where an option ends up when all events are fine.
  ghost predicate Ends<V>(before: Opt<V>, after: Opt<V>, name: string, es: seq<Event>) {
    match before
    case Flag(s, has) => after == Flag(s, has || Set(name) in es)
    case Valued(s, need, has, actual, reader) =>
      match LastValue(es, name)
      case None => after == before
      case Some(v) => reader(v).Some? && after == Valued(s, need, true, reader(v).value, reader)
  }

  // Kinds and readers of the options stay; errors are only added, by the events that are not fine.
  ghost predicate SameKinds<V>(a: map<string, Opt<V>>, b: map<string, Opt<V>>) {
    && a.Keys == b.Keys
    && forall name :: name in a ==>
         && a[name].Flag? == b[name].Flag? && a[name].shortName == b[name].shortName
         && (a[name].Valued? ==> a[name].need == b[name].need && a[name].reader == b[name].reader)
  }

  lemma ApplyAddsErrors<V>(st: State<V>, e: Event)
    ensures SameKinds(st.options, Apply(st, e).options)
    ensures if Fine(st.options, e) then Apply(st, e).errors == st.errors else |Apply(st, e).errors| == |st.errors| + 1
  {
  }

  lemma FineIsStable<V>(a: map<string, Opt<V>>, b: map<string, Opt<V>>, e: Event)
    requires SameKinds(a, b)
    ensures Fine(a, e) == Fine(b, e)
  {
  }

  predicate AllFine<V>(options: map<string, Opt<V>>, es: seq<Event>) {
    forall i :: 0 <= i < |es| ==> Fine(options, es[i])
  }

  lemma AllFineSnoc<V>(options: map<string, Opt<V>>, es: seq<Event>)
    requires es != []
    ensures AllFine(options, es) <==> AllFine(options, es[..|es| - 1]) && Fine(options, es[|es| - 1])
  {
    var front := es[..|es| - 1];
    assert forall i :: 0 <= i < |front| ==> front[i] == es[i];
  }

  lemma {:induction false} ErrorsAreUnfineEvents<V>(st: State<V>, es: seq<Event>)
    ensures SameKinds(st.options, ApplyAll(st, es).options)
    ensures |ApplyAll(st, es).errors| >= |st.errors|
    ensures |ApplyAll(st, es).errors| == |st.errors| <==> AllFine(st.options, es)
  {
    if es != [] {
      var front, e := es[..|es| - 1], es[|es| - 1];
      ErrorsAreUnfineEvents(st, front);
      var mid := ApplyAll(st, front);
      ApplyAddsErrors(mid, e);
      FineIsStable(st.options, mid.options, e);
      AllFineSnoc(st.options, es);
    }
  }

  lemma OneFineEvent<V>(st: State<V>, e: Event, name: string)
    requires Fine(st.options, e) && name in st.options
    ensures name in Apply(st, e).options
    ensures var before, after := st.options[name], Apply(st, e).options[name];
            if e.SetTo? && e.name == name then
              before.Valued? && before.reader(e.value).Some? &&
              after == before.(has := true, actual := before.reader(e.value).value)
            else before.Valued? ==> after == before
    ensures st.options[name].Flag? ==>
              Apply(st, e).options[name] == Flag(st.options[name].shortName, st.options[name].has || e == Set(name))
  {
  }

  lemma {:induction false} FineEventsSetOptions<V>(st: State<V>, es: seq<Event>, name: string)
    requires AllFine(st.options, es) && name in st.options
    ensures name in ApplyAll(st, es).options
    ensures Ends(st.options[name], ApplyAll(st, es).options[name], name, es)
  {
    if es != [] {
      var front, e := es[..|es| - 1], es[|es| - 1];
      AllFineSnoc(st.options, es);
      FineEventsSetOptions(st, front, name);
      ErrorsAreUnfineEvents(st, front);
      FineIsStable(st.options, ApplyAll(st, front).options, e);
      OneFineEvent(ApplyAll(st, front), e, name);
      assert Set(name) in es <==> Set(name) in front || e == Set(name) by { assert es == front + [e]; }
    }
  }

  predicate NoneIsMissing<V>(options: map<string, Opt<V>>, names: seq<string>) {
    forall i :: 0 <= i < |names| && names[i] in options ==> !options[names[i]].Missing()
  }

  lemma {:induction false} NoneMissing<V>(options: map<string, Opt<V>>, names: seq<string>)
    ensures MissingErrors(options, names) == [] <==> NoneIsMissing(options, names)
  {
    if names != [] {
      NoneMissing(options, names[..|names| - 1]);
      assert forall i :: 0 <= i < |names| - 1 ==> names[..|names| - 1][i] == names[i];
    }
  }

  // The state after the events of a command line, before the required options are looked at.
  function AfterEvents<V>(options: map<string, Opt<V>>, sh: Shape, args: seq<string>): State<V>
    requires args != []
  {
    ApplyAll(State(options, [], []), Decode(sh, args[1..]))
  }

  lemma ParseIsEvents<V>(options: map<string, Opt<V>>, names: seq<string>, sh: Shape, args: seq<string>)
    requires ShapeIs(options, names, sh) && args != []
    ensures var st := AfterEvents(options, sh, args);
            ParseSpec(options, names, args) == st.(errors := st.errors + MissingErrors(st.options, names))
  {
  }

  lemma NoErrorsIff<V>(options: map<string, Opt<V>>, names: seq<string>, sh: Shape, args: seq<string>)
    requires ShapeIs(options, names, sh) && args != []
    ensures var st := ParseSpec(options, names, args);
            st.errors == [] <==> AllFine(options, Decode(sh, args[1..])) && NoneIsMissing(st.options, names)
  {
    ParseIsEvents(options, names, sh, args);
    ErrorsAreUnfineEvents(State(options, [], []), Decode(sh, args[1..]));
    NoneMissing(AfterEvents(options, sh, args).options, names);
  }

  lemma OptionAfterSuccess<V>(options: map<string, Opt<V>>, names: seq<string>, sh: Shape, args: seq<string>, name: string)
    requires ShapeIs(options, names, sh) && args != [] && name in options
    requires AllFine(options, Decode(sh, args[1..]))
    ensures var st := ParseSpec(options, names, args);
            name in st.options && Ends(options[name], st.options[name], name, Decode(sh, args[1..]))
  {
    ParseIsEvents(options, names, sh, args);
    FineEventsSetOptions(State(options, [], []), Decode(sh, args[1..]), name);
  }

  ghost predicate AllEnd<V>(before: map<string, Opt<V>>, after: map<string, Opt<V>>, es: seq<Event>) {
    forall name :: name in before ==> name in after && Ends(before[name], after[name], name, es)
  }

  // A parse reports no error exactly when every event of the command line is fine and every
  // required option is set afterwards; then each option with a value holds what its reader makes
  // of its last occurrence, or what it held before if it does not occur, and each option without
  // one is set if it was before or occurs.
  lemma SuccessfulParse<V>(options: map<string, Opt<V>>, names: seq<string>, sh: Shape, args: seq<string>)
    requires ShapeIs(options, names, sh) && args != []
    ensures var es, st := Decode(sh, args[1..]), ParseSpec(options, names, args);
            && (st.errors == [] <==> AllFine(options, es) && NoneIsMissing(st.options, names))
            && (st.errors == [] ==> AllEnd(options, st.options, es))
  {
    NoErrorsIff(options, names, sh, args);
    var st := ParseSpec(options, names, args);
    if st.errors == [] {
      forall name | name in options
        ensures name in st.options && Ends(options[name], st.options[name], name, Decode(sh, args[1..]))
      {
        OptionAfterSuccess(options, names, sh, args, name);
      }
    }
  }
}
