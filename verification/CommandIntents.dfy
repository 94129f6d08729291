/** What a user can say on a command line, how it is written, and what the parse makes of it. */
module CommandIntents {
  import opened Options
  import opened OptionParser
  import opened OptionForms

  // One thing said on a command line, well or badly. The last two are said at its end.
  datatype Setting =
    | LongFlag(name: string)
    | ShortFlag(name: string)
    | LongValue(name: string, value: string, joined: bool)
    | ShortValue(name: string, value: string)
    | Plain(arg: string)
    | Dash
    | FlagWithValue(name: string, value: string)
    | UnknownLong(name: string)
    | UnknownJoined(name: string, value: string)
    | UnknownShort(c: char)
    | LongWithoutValue(name: string)
    | ShortWithoutValue(name: string)

  // How it is written. Options are named by their short names where that is said.
  function Words<V>(options: map<string, Opt<V>>, s: Setting): seq<string> {
    match s
    case LongFlag(name) => ["--" + name]
    case ShortFlag(name) => [ShortWord(options, name)]
    case LongValue(name, value, joined) => if joined then ["--" + name + "=" + value] else ["--" + name, value]
    case ShortValue(name, value) => [ShortWord(options, name), value]
    case Plain(arg) => [arg]
    case Dash => ["-"]
    case FlagWithValue(name, value) => ["--" + name + "=" + value]
    case UnknownLong(name) => ["--" + name]
    case UnknownJoined(name, value) => ["--" + name + "=" + value]
    case UnknownShort(c) => [['-', c]]
    case LongWithoutValue(name) => ["--" + name]
    case ShortWithoutValue(name) => [ShortWord(options, name)]
  }

  function ShortWord<V>(options: map<string, Opt<V>>, name: string): string {
    if name in options then ['-', options[name].shortName] else "-"
  }

  function AllWords<V>(options: map<string, Opt<V>>, ss: seq<Setting>): seq<string> {
    if ss == [] then [] else Words(options, ss[0]) + AllWords(options, ss[1..])
  }

  predicate HasShort<V>(options: map<string, Opt<V>>, name: string) {
    name != "" && name in options && options[name].shortName != '\0'
  }

  // Whether a setting says what its name says, for the options there are.
  ghost predicate Legal<V>(options: map<string, Opt<V>>, s: Setting) {
    match s
    case LongFlag(name) => name in options && options[name].Flag? && '=' !in name
    case ShortFlag(name) => HasShort(options, name) && options[name].Flag? && options[name].shortName != '-'
    case LongValue(name, _, _) => name in options && options[name].Valued? && '=' !in name
    case ShortValue(name, _) => HasShort(options, name) && options[name].Valued? && options[name].shortName != '-'
    case Plain(arg) => arg == "" || arg[0] != '-'
    case Dash => true
    case FlagWithValue(name, _) => name in options && options[name].Flag? && '=' !in name
    case UnknownLong(name) => name !in options && '=' !in name
    case UnknownJoined(name, _) => name !in options && '=' !in name
    case UnknownShort(c) => c != '-' && forall name :: HasShort(options, name) ==> options[name].shortName != c
    case LongWithoutValue(name) => name in options && options[name].Valued? && '=' !in name
    case ShortWithoutValue(name) => HasShort(options, name) && options[name].Valued? && options[name].shortName != '-'
  }

  predicate Unfinished(s: Setting) { s.LongWithoutValue? || s.ShortWithoutValue? }

  ghost predicate AllLegal<V>(options: map<string, Opt<V>>, ss: seq<Setting>) {
    forall i :: 0 <= i < |ss| ==> Legal(options, ss[i]) && (Unfinished(ss[i]) ==> i == |ss| - 1)
  }

  // ---------- what it means ----------

  predicate Rejects<V>(options: map<string, Opt<V>>, name: string, value: string) {
    name in options && (options[name].Valued? ==> options[name].reader(value).None?)
  }

  // The error a setting causes, if any.
  function Complaint<V>(options: map<string, Opt<V>>, s: Setting): seq<string> {
    match s
    case LongValue(name, value, _) =>
      if Rejects(options, name, value) then ["option value is invalid: --" + name + "=" + value] else []
    case ShortValue(name, value) =>
      if Rejects(options, name, value) then ["option value is invalid: --" + name + "=" + value] else []
    case FlagWithValue(name, value) => ["option value is invalid: --" + name + "=" + value]
    case UnknownLong(name) => ["undefined option: --" + name]
    case UnknownJoined(name, _) => ["undefined option: --" + name]
    case UnknownShort(c) => ["undefined short option: -" + [c]]
    case LongWithoutValue(name) => ["option needs value: --" + name]
    case ShortWithoutValue(name) => ["option needs value: --" + name]
    case _ => []
  }

  function Complaints<V>(options: map<string, Opt<V>>, ss: seq<Setting>): seq<string> {
    if ss == [] then [] else Complaint(options, ss[0]) + Complaints(options, ss[1..])
  }

  function PlainArg(s: Setting): seq<string> {
    if s.Plain? then [s.arg] else []
  }

  function PlainArgs(ss: seq<Setting>): seq<string> {
    if ss == [] then [] else PlainArg(ss[0]) + PlainArgs(ss[1..])
  }

  function GivenValue(s: Setting, name: string): Option<string> {
    if (s.LongValue? || s.ShortValue?) && s.name == name then Some(s.value) else None
  }

  // The last value given to an option that its reader accepts.
  function LastAccepted<V>(reader: string -> Option<V>, ss: seq<Setting>, name: string): Option<string> {
    if ss == [] then None
    else if LastAccepted(reader, ss[1..], name).Some? then LastAccepted(reader, ss[1..], name)
    else if GivenValue(ss[0], name).Some? && reader(GivenValue(ss[0], name).value).Some? then GivenValue(ss[0], name)
    else None
  }

  // Where an option ends up.
  ghost predicate Outcome<V>(before: Opt<V>, after: Opt<V>, ss: seq<Setting>, name: string) {
    match before
    case Flag(c, has) => after == Flag(c, has || LongFlag(name) in ss || ShortFlag(name) in ss)
    case Valued(c, need, has, actual, reader) =>
      match LastAccepted(reader, ss, name)
      case None => after == before
      case Some(v) => reader(v).Some? && after == Valued(c, need, true, reader(v).value, reader)
  }

  ghost predicate Outcomes<V>(before: map<string, Opt<V>>, after: map<string, Opt<V>>, ss: seq<Setting>) {
    && after.Keys == before.Keys
    && forall name :: name in before ==> Outcome(before[name], after[name], ss, name)
  }

  // ---------- the table of short names ----------

  // The names of the options, each once.
  ghost predicate NamesOf<V>(options: map<string, Opt<V>>, names: seq<string>) {
    && (forall i :: 0 <= i < |names| ==> names[i] in options)
    && (forall name :: name in options ==> name in names)
    && (forall i, j :: 0 <= i < j < |names| ==> names[i] != names[j])
  }

  ghost predicate Clash<V>(options: map<string, Opt<V>>, names: seq<string>, i: int, j: int) {
    && 0 <= i < j < |names| && HasShort(options, names[i]) && HasShort(options, names[j])
    && options[names[i]].shortName == options[names[j]].shortName
  }

  // A table says exactly which option has which short name.
  ghost predicate Exact<V>(options: map<string, Opt<V>>, names: seq<string>, lookup: map<char, string>) {
    && (forall c :: c in lookup ==> lookup[c] in names && HasShort(options, lookup[c]) && options[lookup[c]].shortName == c)
    && (forall i :: 0 <= i < |names| && HasShort(options, names[i]) ==>
          options[names[i]].shortName in lookup && lookup[options[names[i]].shortName] == names[i])
  }

  lemma ExactSnoc<V>(options: map<string, Opt<V>>, names: seq<string>, name: string, lookup: map<char, string>)
    requires Exact(options, names, lookup)
    ensures !HasShort(options, name) ==> Exact(options, names + [name], lookup)
    ensures HasShort(options, name) && options[name].shortName !in lookup ==>
              Exact(options, names + [name], lookup[options[name].shortName := name])
    ensures HasShort(options, name) && options[name].shortName in lookup ==>
              exists i :: Clash(options, names + [name], i, |names|)
  {
    if HasShort(options, name) && options[name].shortName in lookup {
      var i :| 0 <= i < |names| && names[i] == lookup[options[name].shortName];
      assert Clash(options, names + [name], i, |names|);
    }
  }

  // The table is built exactly if no two options share a short name.
  lemma {:induction false} LookupExact<V>(options: map<string, Opt<V>>, names: seq<string>)
    requires forall i :: 0 <= i < |names| ==> names[i] in options
    ensures match LookupOf(options, names)
            case Table(lookup) => Exact(options, names, lookup)
            case Ambiguous(c) => exists i, j :: Clash(options, names, i, j) && options[names[i]].shortName == c
  {
    if names != [] {
      var front, name := names[..|names| - 1], names[|names| - 1];
      assert names == front + [name];
      LookupExact(options, front);
      match LookupOf(options, front)
      case Table(lookup) => ExactSnoc(options, front, name, lookup);
      case Ambiguous(c) =>
        var i, j :| Clash(options, front, i, j) && options[front[i]].shortName == c;
        assert Clash(options, names, i, j) && options[names[i]].shortName == c;
    }
  }

  lemma TableMeansNoClash<V>(options: map<string, Opt<V>>, names: seq<string>)
    requires NamesOf(options, names)
    ensures LookupOf(options, names).Table? <==> forall i, j :: !Clash(options, names, i, j)
  {
    LookupExact(options, names);
  }

  // If two options share a short name, the parse does nothing but say so.
  lemma ClashIsReported<V>(options: map<string, Opt<V>>, names: seq<string>, args: seq<string>, i: nat, j: nat)
    requires NamesOf(options, names) && args != [] && Clash(options, names, i, j)
    ensures exists k, l :: Clash(options, names, k, l) &&
              ParseSpec(options, names, args) ==
              State(options, ["short option '" + [options[names[k]].shortName] + "' is ambiguous"], [])
  {
    TableMeansNoClash(options, names);
    LookupExact(options, names);
  }

  // ---------- reading back the words ----------

  // The events of a setting.
  function EventOf(s: Setting): seq<Event> {
    match s
    case LongFlag(name) => [Set(name)]
    case ShortFlag(name) => [Set(name)]
    case LongValue(name, value, _) => [SetTo(name, value)]
    case ShortValue(name, value) => [SetTo(name, value)]
    case Plain(arg) => [Other(arg)]
    case Dash => []
    case FlagWithValue(name, value) => [SetTo(name, value)]
    case UnknownLong(name) => [OptionParser.Complaint("undefined option: --" + name)]
    case UnknownJoined(name, value) => [SetTo(name, value)]
    case UnknownShort(c) => [OptionParser.Complaint("undefined short option: -" + [c])]
    case LongWithoutValue(name) => [OptionParser.Complaint("option needs value: --" + name)]
    case ShortWithoutValue(name) => [Set(name)]
  }

  function EventsOf(ss: seq<Setting>): seq<Event> {
    if ss == [] then [] else EventOf(ss[0]) + EventsOf(ss[1..])
  }

  // The shape the options are decoded against when no two share a short name.
  ghost predicate ShapeOk<V>(options: map<string, Opt<V>>, names: seq<string>, sh: Shape) {
    NamesOf(options, names) && Exact(options, names, sh.lookup) && sh == ShapeOf(options, sh.lookup)
  }

  lemma LongWordSplits(name: string, value: string)
    requires '=' !in name
    ensures var s := "--" + name;
            IsLong(s) && Find(s, '=', 2) == |s| && s[2..] == name
    ensures var s, p := "--" + name + "=" + value, |name| + 2;
            IsLong(s) && Find(s, '=', 2) == p < |s| && s[2..p] == name && s[p + 1..] == value
  {
    var s := "--" + name;
    assert forall i :: 2 <= i < |s| ==> s[i] == name[i - 2];
    FindSkips(s, value, '=', 2);
    assert "--" + name + "=" + value == s + ['='] + value;
  }

  // A word written out in front of the rest is what the parser looks at first.
  lemma Front(words: seq<string>, rest: seq<string>)
    requires words != []
    ensures var args := words + rest;
            && args[0] == words[0] && args[|words|..] == rest
            && (|words| == 1 ==> args[1..] == rest) && (|words| > 1 ==> args[1] == words[1] && args[1..] != [])
  {
  }

  // `--name`, alone or with the next word.
  lemma SeparateDecodes<V>(options: map<string, Opt<V>>, names: seq<string>, sh: Shape, s: Setting, rest: seq<string>)
    requires ShapeOk(options, names, sh) && Legal(options, s) && (s.LongWithoutValue? ==> rest == [])
    requires s.LongFlag? || (s.LongValue? && !s.joined) || s.UnknownLong? || s.LongWithoutValue?
    ensures First(sh, Words(options, s) + rest) == (EventOf(s), |Words(options, s)|)
  {
    LongWordSplits(s.name, "");
    Front(Words(options, s), rest);
  }

  // `--name=value`
  lemma JoinedDecodes<V>(options: map<string, Opt<V>>, sh: Shape, s: Setting, rest: seq<string>)
    requires Legal(options, s) && ((s.LongValue? && s.joined) || s.FlagWithValue? || s.UnknownJoined?)
    ensures First(sh, Words(options, s) + rest) == (EventOf(s), |Words(options, s)|)
  {
    LongWordSplits(s.name, s.value);
    Front(Words(options, s), rest);
  }

  lemma ShortKnown<V>(options: map<string, Opt<V>>, names: seq<string>, sh: Shape, name: string)
    requires ShapeOk(options, names, sh) && HasShort(options, name)
    ensures options[name].shortName in sh.lookup && sh.lookup[options[name].shortName] == name
  {
    assert name in names;
  }

  lemma ShortUnknown<V>(options: map<string, Opt<V>>, names: seq<string>, sh: Shape, c: char)
    requires ShapeOk(options, names, sh) && forall name :: HasShort(options, name) ==> options[name].shortName != c
    ensures c !in sh.lookup
  {
  }

  // A dash and one letter.
  lemma OneLetterFirst(sh: Shape, c: char, more: seq<string>)
    requires c != '-'
    ensures First(sh, [['-', c]] + more) == LastLetter(sh, c, more)
  {
    var args := [['-', c]] + more;
    assert args[0] == ['-', c] && args[1..] == more && args[0][1..1] == "";
    assert LetterEvents(sh, "") + LastLetter(sh, c, more).0 == LastLetter(sh, c, more).0;
  }

  lemma ShortDecodes<V>(options: map<string, Opt<V>>, names: seq<string>, sh: Shape, s: Setting, rest: seq<string>)
    requires ShapeOk(options, names, sh) && Legal(options, s) && (s.ShortWithoutValue? ==> rest == [])
    requires s.ShortFlag? || s.ShortValue? || s.UnknownShort? || s.ShortWithoutValue?
    ensures First(sh, Words(options, s) + rest) == (EventOf(s), |Words(options, s)|)
  {
    if s.UnknownShort? {
      ShortUnknown(options, names, sh, s.c);
      OneLetterFirst(sh, s.c, rest);
    } else {
      var c := options[s.name].shortName;
      ShortKnown(options, names, sh, s.name);
      if s.ShortValue? {
        assert Words(options, s) + rest == [['-', c]] + ([s.value] + rest);
        OneLetterFirst(sh, c, [s.value] + rest);
      } else {
        OneLetterFirst(sh, c, rest);
      }
    }
  }

  lemma SettingDecodes<V>(options: map<string, Opt<V>>, names: seq<string>, sh: Shape, s: Setting, rest: seq<string>)
    requires ShapeOk(options, names, sh) && Legal(options, s) && (Unfinished(s) ==> rest == [])
    ensures Decode(sh, Words(options, s) + rest) == EventOf(s) + Decode(sh, rest)
  {
    Front(Words(options, s), rest);
    if s.ShortFlag? || s.ShortValue? || s.UnknownShort? || s.ShortWithoutValue? {
      ShortDecodes(options, names, sh, s, rest);
    } else if (s.LongValue? && s.joined) || s.FlagWithValue? || s.UnknownJoined? {
      JoinedDecodes(options, sh, s, rest);
    } else if !s.Plain? && !s.Dash? {
      SeparateDecodes(options, names, sh, s, rest);
    }
  }

  lemma {:induction false} WordsDecode<V>(options: map<string, Opt<V>>, names: seq<string>, sh: Shape, ss: seq<Setting>)
    requires ShapeOk(options, names, sh) && AllLegal(options, ss)
    ensures Decode(sh, AllWords(options, ss)) == EventsOf(ss)
    decreases |ss|
  {
    if ss != [] {
      assert forall i :: 0 <= i < |ss| - 1 ==> ss[1..][i] == ss[i + 1];
      WordsDecode(options, names, sh, ss[1..]);
      SettingDecodes(options, names, sh, ss[0], AllWords(options, ss[1..]));
    }
  }

  // ---------- applying the events ----------

  lemma LastOfOne<V>(reader: string -> Option<V>, s: Setting, name: string)
    ensures var given := GivenValue(s, name);
            LastAccepted(reader, [s], name) == if given.Some? && reader(given.value).Some? then given else None
  {
    assert [s][1..] == [] && LastAccepted(reader, [], name) == None;
  }

  lemma LastOfMore<V>(reader: string -> Option<V>, s: Setting, ss: seq<Setting>, name: string)
    ensures LastAccepted(reader, [s] + ss, name) ==
            if LastAccepted(reader, ss, name).Some? then LastAccepted(reader, ss, name) else LastAccepted(reader, [s], name)
  {
    assert ([s] + ss)[0] == s && ([s] + ss)[1..] == ss;
    LastOfOne(reader, s, name);
  }

  lemma OneOutcome<V>(options: map<string, Opt<V>>, st: State<V>, s: Setting, name: string)
    requires Legal(options, s) && SameKinds(options, st.options) && name in st.options
    ensures name in ApplyAll(st, EventOf(s)).options
    ensures Outcome(st.options[name], ApplyAll(st, EventOf(s)).options[name], [s], name)
  {
    ApplyOne(st);
    if st.options[name].Valued? {
      LastOfOne(st.options[name].reader, s, name);
    }
  }

  // What applying an event adds to the errors.
  function ErrorOf<V>(options: map<string, Opt<V>>, e: Event): seq<string> {
    match e
    case SetTo(name, value) =>
      if name !in options then ["undefined option: --" + name]
      else if Rejects(options, name, value) then ["option value is invalid: --" + name + "=" + value]
      else []
    case Set(name) =>
      if name !in options then ["undefined option: --" + name]
      else if options[name].Valued? then ["option needs value: --" + name]
      else []
    case Complaint(msg) => [msg]
    case Other(_) => []
  }

  lemma ApplyAddsError<V>(options: map<string, Opt<V>>, st: State<V>, e: Event)
    requires SameKinds(options, st.options)
    ensures Apply(st, e).errors == st.errors + ErrorOf(options, e)
    ensures Apply(st, e).others == st.others + if e.Other? then [e.arg] else []
  {
    assert st.errors + [] == st.errors && st.others + [] == st.others;
  }

  lemma SettingError<V>(options: map<string, Opt<V>>, s: Setting)
    requires Legal(options, s) && !s.Dash?
    ensures ErrorOf(options, EventOf(s)[0]) == Complaint(options, s)
    ensures PlainArg(s) == if EventOf(s)[0].Other? then [EventOf(s)[0].arg] else []
  {
  }

  lemma KindsCompose<V>(a: map<string, Opt<V>>, b: map<string, Opt<V>>, c: map<string, Opt<V>>)
    requires SameKinds(a, b) && SameKinds(b, c)
    ensures SameKinds(a, c)
  {
  }

  lemma OneSetting<V>(options: map<string, Opt<V>>, st: State<V>, s: Setting)
    requires Legal(options, s) && SameKinds(options, st.options)
    ensures var after := ApplyAll(st, EventOf(s));
            && after.errors == st.errors + Complaint(options, s) && after.others == st.others + PlainArg(s)
            && SameKinds(options, after.options)
  {
    if s.Dash? {
      assert st.errors + [] == st.errors && st.others + [] == st.others;
    } else {
      var e := EventOf(s)[0];
      ApplyOne(st);
      assert EventOf(s) == [e];
      ApplyAddsError(options, st, e);
      SettingError(options, s);
      ApplyAddsErrors(st, e);
      KindsCompose(options, st.options, Apply(st, e).options);
    }
  }

  lemma OneSettingOutcomes<V>(options: map<string, Opt<V>>, st: State<V>, s: Setting)
    requires Legal(options, s) && SameKinds(options, st.options)
    ensures Outcomes(st.options, ApplyAll(st, EventOf(s)).options, [s])
  {
    OneSetting(options, st, s);
    forall name | name in st.options
      ensures Outcome(st.options[name], ApplyAll(st, EventOf(s)).options[name], [s], name)
    {
      OneOutcome(options, st, s, name);
    }
  }

  lemma OutcomeComposes<V>(a: Opt<V>, b: Opt<V>, c: Opt<V>, s: Setting, ss: seq<Setting>, name: string)
    requires Outcome(a, b, [s], name) && Outcome(b, c, ss, name)
    ensures Outcome(a, c, [s] + ss, name)
  {
    if a.Valued? {
      LastOfMore(a.reader, s, ss, name);
    } else {
      assert forall f :: f in [s] + ss <==> f in [s] || f in ss;
    }
  }

  lemma OutcomesCompose<V>(a: map<string, Opt<V>>, b: map<string, Opt<V>>, c: map<string, Opt<V>>, s: Setting, ss: seq<Setting>)
    requires Outcomes(a, b, [s]) && Outcomes(b, c, ss)
    ensures Outcomes(a, c, [s] + ss)
  {
    forall name | name in a ensures Outcome(a[name], c[name], [s] + ss, name) {
      OutcomeComposes(a[name], b[name], c[name], s, ss, name);
    }
  }

  lemma NothingSaid<V>(options: map<string, Opt<V>>)
    ensures Outcomes(options, options, [])
  {
  }

  // What the settings so far have added to the errors and to the rest.
  lemma AddUp(errors: seq<string>, a: seq<string>, b: seq<string>)
    ensures errors + a + b == errors + (a + b)
  {
  }

  lemma LegalRest<V>(options: map<string, Opt<V>>, ss: seq<Setting>)
    requires AllLegal(options, ss) && ss != []
    ensures AllLegal(options, ss[1..]) && Legal(options, ss[0]) && ss == [ss[0]] + ss[1..]
  {
    assert forall i :: 0 <= i < |ss| - 1 ==> ss[1..][i] == ss[i + 1];
  }

  lemma {:induction false} AllSettings<V>(options: map<string, Opt<V>>, st: State<V>, ss: seq<Setting>)
    requires AllLegal(options, ss) && SameKinds(options, st.options)
    ensures var after := ApplyAll(st, EventsOf(ss));
            after.errors == st.errors + Complaints(options, ss) && after.others == st.others + PlainArgs(ss)
    ensures Outcomes(st.options, ApplyAll(st, EventsOf(ss)).options, ss)
    decreases |ss|
  {
    if ss == [] {
      NothingSaid(st.options);
      assert st.errors + [] == st.errors && st.others + [] == st.others;
    } else {
      var s, rest := ss[0], ss[1..];
      var mid := ApplyAll(st, EventOf(s));
      LegalRest(options, ss);
      OneSetting(options, st, s);
      OneSettingOutcomes(options, st, s);
      AllSettings(options, mid, rest);
      ApplyConcat(st, EventOf(s), EventsOf(rest));
      OutcomesCompose(st.options, mid.options, ApplyAll(mid, EventsOf(rest)).options, s, rest);
      AddUp(st.errors, Complaint(options, s), Complaints(options, rest));
      AddUp(st.others, PlainArg(s), PlainArgs(rest));
    }
  }

  // ---------- the round trip ----------

  // The errors about required options name exactly those that are not set.
  lemma {:induction false} MissingAreNamed<V>(options: map<string, Opt<V>>, names: seq<string>, e: string)
    ensures e in MissingErrors(options, names) <==>
            exists i :: 0 <= i < |names| && names[i] in options && options[names[i]].Missing() && e == "need option: --" + names[i]
  {
    if names != [] {
      MissingAreNamed(options, names[..|names| - 1], e);
      assert forall i :: 0 <= i < |names| - 1 ==> names[..|names| - 1][i] == names[i];
    }
  }

  // Whatever is said on a command line, the parse does: it sets the flags and values said, hands
  // back the plain arguments, complains about what is wrong and only that, and about the required
  // options that are not set in the end.
  lemma CommandLineRoundTrip<V>(options: map<string, Opt<V>>, names: seq<string>, prog: string, ss: seq<Setting>)
    requires NamesOf(options, names) && (forall i, j :: !Clash(options, names, i, j)) && AllLegal(options, ss)
    ensures var st := ParseSpec(options, names, [prog] + AllWords(options, ss));
            && Outcomes(options, st.options, ss) && st.others == PlainArgs(ss)
            && Complaints(options, ss) <= st.errors
            && (forall e :: e in st.errors[|Complaints(options, ss)|..] <==>
                  exists name :: name in options && st.options[name].Missing() && e == "need option: --" + name)
  {
    LookupExact(options, names);
    var sh := ShapeOf(options, LookupOf(options, names).lookup);
    var start := State(options, [], []);
    var st := ParseSpec(options, names, [prog] + AllWords(options, ss));
    assert ([prog] + AllWords(options, ss))[1..] == AllWords(options, ss);
    WordsDecode(options, names, sh, ss);
    AllSettings(options, start, ss);
    assert st.errors == ([] + Complaints(options, ss)) + MissingErrors(st.options, names);
    forall e ensures e in st.errors[|Complaints(options, ss)|..] <==>
                     exists name :: name in options && st.options[name].Missing() && e == "need option: --" + name
    {
      MissingAreNamed(st.options, names, e);
    }
  }
}
