/** Splitting a command line into arguments. */
module Tokenizer {
  datatype Outcome = Args(args: seq<string>) | TrailingBackslash | UnclosedQuote

  // A scan in progress; `escaped` means that a backslash waits for its character.
  datatype Scanner = Scanner(args: seq<string>, buf: string, inQuote: bool, escaped: bool)
  {
    function Next(c: char): Scanner {
      if escaped then Scanner(args, buf + [c], inQuote, false)
      else if c == '"' then Scanner(args, buf, !inQuote, false)
      else if c == ' ' && !inQuote then Scanner(args + [buf], "", inQuote, false)
      else if c == '\\' then Scanner(args, buf, inQuote, true)
      else Scanner(args, buf + [c], inQuote, false)
    }

    function Finish(): Outcome {
      if escaped then TrailingBackslash
      else if inQuote then UnclosedQuote
      else Args(if buf != "" then args + [buf] else args)
    }
  }

  function Scan(sc: Scanner, s: string): Scanner {
    if s == "" then sc else Scan(sc, s[..|s| - 1]).Next(s[|s| - 1])
  }

  const START := Scanner([], "", false, false)

  // The loop of parse(string), up to the call that parses the arguments.
  method Tokenize(arg: string) returns (r: Outcome)
    ensures r == Scan(START, arg).Finish()
  {
    var args: seq<string>, buf, inQuote := [], "", false;
    var i := 0;
    while i < |arg|
      invariant 0 <= i <= |arg|
      invariant Scan(START, arg[..i]) == Scanner(args, buf, inQuote, false)
    {
      assert arg[..i + 1][..i] == arg[..i];
      if arg[i] == '"' {
        inQuote := !inQuote;
        i := i + 1;
        continue;
      }
      if arg[i] == ' ' && !inQuote {
        args := args + [buf];
        buf := "";
        i := i + 1;
        continue;
      }
      if arg[i] == '\\' {
        i := i + 1;
        if i >= |arg| {
          assert arg[..i] == arg;
          return TrailingBackslash;
        }
        assert arg[..i + 1][..i] == arg[..i];
      }
      buf := buf + [arg[i]];
      i := i + 1;
    }
    assert arg[..i] == arg;
    if inQuote {
      return UnclosedQuote;
    }
    if |buf| > 0 {
      args := args + [buf];
    }
    return Args(args);
  }

  lemma {:induction false} ScanConcat(sc: Scanner, s: string, t: string)
    ensures Scan(sc, s + t) == Scan(Scan(sc, s), t)
  {
    if t == "" {
      assert s + t == s;
    } else {
      assert (s + t)[..|s + t| - 1] == s + t[..|t| - 1];
      ScanConcat(sc, s, t[..|t| - 1]);
    }
  }

  // Two texts that add to the argument being collected, one after the other.
  lemma ScanThen(sc: Scanner, a: string, am: string, b: string, bm: string)
    requires Scan(sc, a) == sc.(buf := sc.buf + am)
    requires Scan(sc.(buf := sc.buf + am), b) == sc.(buf := sc.buf + am + bm)
    ensures Scan(sc, a + b) == sc.(buf := sc.buf + (am + bm))
  {
    ScanConcat(sc, a, b);
    assert sc.buf + am + bm == sc.buf + (am + bm);
  }

  predicate Special(c: char) { c == ' ' || c == '"' || c == '\\' }

  // An argument with a backslash before each special character.
  function Escape(arg: string): string {
    if arg == "" then ""
    else
      var c := arg[|arg| - 1];
      Escape(arg[..|arg| - 1]) + if Special(c) then ['\\', c] else [c]
  }

  function CommandLine(args: seq<string>): string {
    if args == [] then "" else CommandLine(args[..|args| - 1]) + (Escape(args[|args| - 1]) + " ")
  }

  lemma ScanOne(sc: Scanner, c: char)
    requires !sc.inQuote && !sc.escaped
    ensures Scan(sc, if Special(c) then ['\\', c] else [c]) == sc.(buf := sc.buf + [c])
  {
    if Special(c) {
      assert ['\\', c][..1] == ['\\'] && ['\\'][..0] == "";
      assert Scan(sc, ['\\']) == Scan(sc, "").Next('\\');
    } else {
      assert [c][..0] == "";
    }
  }

  lemma {:induction false} ScanEscaped(sc: Scanner, arg: string)
    requires !sc.inQuote && !sc.escaped
    ensures Scan(sc, Escape(arg)) == sc.(buf := sc.buf + arg)
  {
    if arg == "" {
      assert sc.buf + arg == sc.buf;
    } else {
      var front, c := arg[..|arg| - 1], arg[|arg| - 1];
      ScanEscaped(sc, front);
      ScanOne(sc.(buf := sc.buf + front), c);
      ScanThen(sc, Escape(front), front, if Special(c) then ['\\', c] else [c], [c]);
      assert front + [c] == arg;
    }
  }

  lemma ScanSpace(sc: Scanner)
    requires !sc.inQuote && !sc.escaped
    ensures Scan(sc, " ") == Scanner(sc.args + [sc.buf], "", false, false)
  {
    assert " "[..0] == "";
    assert Scan(sc, " "[..0]) == sc;
  }

  lemma ScanArgument(done: seq<string>, arg: string)
    ensures Scan(Scanner(done, "", false, false), Escape(arg) + " ") == Scanner(done + [arg], "", false, false)
  {
    var sc := Scanner(done, "", false, false);
    ScanConcat(sc, Escape(arg), " ");
    ScanEscaped(sc, arg);
    assert "" + arg == arg;
    ScanSpace(Scanner(done, arg, false, false));
  }

  lemma OneMoreArgument(line: string, done: seq<string>, arg: string)
    requires Scan(START, line) == Scanner(done, "", false, false)
    ensures Scan(START, line + (Escape(arg) + " ")) == Scanner(done + [arg], "", false, false)
  {
    ScanConcat(START, line, Escape(arg) + " ");
    ScanArgument(done, arg);
  }

  lemma {:induction false} ScanCommandLine(args: seq<string>)
    ensures Scan(START, CommandLine(args)) == Scanner(args, "", false, false)
  {
    if args != [] {
      var front, arg := args[..|args| - 1], args[|args| - 1];
      ScanCommandLine(front);
      OneMoreArgument(CommandLine(front), front, arg);
      assert front + [arg] == args;
    }
  }

  // Escaping every argument and ending it with a space is undone by the tokenizer, for any
  // arguments, empty ones included.
  lemma TokenizerRoundTrip(args: seq<string>)
    ensures Scan(START, CommandLine(args)).Finish() == Args(args)
  {
    ScanCommandLine(args);
  }

  // ---------- all well-formed command lines ----------

  // A character as it stands or behind a backslash, and a part of an argument inside or outside
  // quotes.
  datatype Piece = Bare(c: char) | Escaped(c: char)
  datatype Part = Open(p: Piece) | Quoted(ps: seq<Piece>)

  predicate LegalPiece(p: Piece, inQuote: bool) {
    p.Escaped? || (p.c != '"' && p.c != '\\' && (p.c == ' ' ==> inQuote))
  }

  predicate LegalPart(part: Part) {
    match part
    case Open(p) => LegalPiece(p, false)
    case Quoted(ps) => forall i :: 0 <= i < |ps| ==> LegalPiece(ps[i], true)
  }

  predicate LegalParts(parts: seq<Part>) {
    forall i :: 0 <= i < |parts| ==> LegalPart(parts[i])
  }

  function PieceText(p: Piece): string {
    if p.Escaped? then ['\\', p.c] else [p.c]
  }

  function PiecesText(ps: seq<Piece>): string {
    if ps == [] then "" else PiecesText(ps[..|ps| - 1]) + PieceText(ps[|ps| - 1])
  }

  function PartText(part: Part): string {
    match part
    case Open(p) => PieceText(p)
    case Quoted(ps) => "\"" + PiecesText(ps) + "\""
  }

  function PartsText(parts: seq<Part>): string {
    if parts == [] then "" else PartsText(parts[..|parts| - 1]) + PartText(parts[|parts| - 1])
  }

  // The characters the pieces stand for.
  function PiecesMeaning(ps: seq<Piece>): string {
    if ps == [] then "" else PiecesMeaning(ps[..|ps| - 1]) + [ps[|ps| - 1].c]
  }

  function PartMeaning(part: Part): string {
    match part
    case Open(p) => [p.c]
    case Quoted(ps) => PiecesMeaning(ps)
  }

  function PartsMeaning(parts: seq<Part>): string {
    if parts == [] then "" else PartsMeaning(parts[..|parts| - 1]) + PartMeaning(parts[|parts| - 1])
  }

  function LineText(args: seq<seq<Part>>): string {
    if args == [] then "" else LineText(args[..|args| - 1]) + (PartsText(args[|args| - 1]) + " ")
  }

  function LineMeaning(args: seq<seq<Part>>): seq<string> {
    if args == [] then [] else LineMeaning(args[..|args| - 1]) + [PartsMeaning(args[|args| - 1])]
  }

  lemma ScanChar(sc: Scanner, c: char)
    ensures Scan(sc, [c]) == sc.Next(c)
  {
    assert [c][..0] == "";
    assert Scan(sc, [c][..0]) == sc;
  }

  lemma ScanPiece(sc: Scanner, p: Piece)
    requires !sc.escaped && LegalPiece(p, sc.inQuote)
    ensures Scan(sc, PieceText(p)) == sc.(buf := sc.buf + [p.c])
  {
    if p.Escaped? {
      assert ['\\', p.c] == ['\\'] + [p.c];
      ScanConcat(sc, ['\\'], [p.c]);
      ScanChar(sc, '\\');
      ScanChar(sc.(escaped := true), p.c);
    } else {
      ScanChar(sc, p.c);
    }
  }

  lemma {:induction false} ScanPieces(sc: Scanner, ps: seq<Piece>)
    requires !sc.escaped && sc.inQuote && LegalPart(Quoted(ps))
    ensures Scan(sc, PiecesText(ps)) == sc.(buf := sc.buf + PiecesMeaning(ps))
    decreases |ps|
  {
    if ps == [] {
      assert sc.buf + "" == sc.buf;
    } else {
      var front, p := ps[..|ps| - 1], ps[|ps| - 1];
      ScanPieces(sc, front);
      ScanPiece(sc.(buf := sc.buf + PiecesMeaning(front)), p);
      ScanThen(sc, PiecesText(front), PiecesMeaning(front), PieceText(p), [p.c]);
    }
  }

  lemma ScanQuoted(sc: Scanner, ps: seq<Piece>)
    requires !sc.escaped && !sc.inQuote && LegalPart(Quoted(ps))
    ensures Scan(sc, "\"" + PiecesText(ps) + "\"") == sc.(buf := sc.buf + PiecesMeaning(ps))
  {
    ScanChar(sc, '"');
    ScanConcat(sc, "\"", PiecesText(ps));
    ScanPieces(sc.(inQuote := true), ps);
    ScanConcat(sc, "\"" + PiecesText(ps), "\"");
    ScanChar(sc.(inQuote := true, buf := sc.buf + PiecesMeaning(ps)), '"');
  }

  lemma ScanPart(sc: Scanner, part: Part)
    requires !sc.escaped && !sc.inQuote && LegalPart(part)
    ensures Scan(sc, PartText(part)) == sc.(buf := sc.buf + PartMeaning(part))
  {
    match part
    case Open(p) => ScanPiece(sc, p);
    case Quoted(ps) => ScanQuoted(sc, ps);
  }

  lemma {:induction false} ScanParts(sc: Scanner, parts: seq<Part>)
    requires !sc.escaped && !sc.inQuote && LegalParts(parts)
    ensures Scan(sc, PartsText(parts)) == sc.(buf := sc.buf + PartsMeaning(parts))
    decreases |parts|
  {
    if parts == [] {
      assert sc.buf + "" == sc.buf;
    } else {
      var front, part := parts[..|parts| - 1], parts[|parts| - 1];
      ScanParts(sc, front);
      ScanPart(sc.(buf := sc.buf + PartsMeaning(front)), part);
      ScanThen(sc, PartsText(front), PartsMeaning(front), PartText(part), PartMeaning(part));
    }
  }

  lemma {:induction false} ScanLine(args: seq<seq<Part>>)
    requires forall i :: 0 <= i < |args| ==> LegalParts(args[i])
    ensures Scan(START, LineText(args)) == Scanner(LineMeaning(args), "", false, false)
    decreases |args|
  {
    if args != [] {
      var front, arg := args[..|args| - 1], args[|args| - 1];
      ScanLine(front);
      var sc := Scanner(LineMeaning(front), "", false, false);
      ScanConcat(START, LineText(front), PartsText(arg) + " ");
      ScanConcat(sc, PartsText(arg), " ");
      ScanParts(sc, arg);
      assert "" + PartsMeaning(arg) == PartsMeaning(arg);
      ScanSpace(sc.(buf := PartsMeaning(arg)));
    }
  }

  // Arguments written with any mixture of quotes and backslashes, each ended by a space, and a
  // last one without it, are split into what they stand for; a last one that stands for nothing
  // is no argument.
  lemma WellFormedLines(args: seq<seq<Part>>, last: seq<Part>)
    requires (forall i :: 0 <= i < |args| ==> LegalParts(args[i])) && LegalParts(last)
    ensures Scan(START, LineText(args) + PartsText(last)).Finish() ==
            Args(LineMeaning(args) + if PartsMeaning(last) == "" then [] else [PartsMeaning(last)])
  {
    ScanLine(args);
    ScanConcat(START, LineText(args), PartsText(last));
    ScanParts(Scanner(LineMeaning(args), "", false, false), last);
    assert "" + PartsMeaning(last) == PartsMeaning(last);
    assert LineMeaning(args) + [] == LineMeaning(args);
  }

  // ---------- the two errors ----------

  // How many backslashes a string ends with.
  function BackslashRun(s: string): nat {
    if s != "" && s[|s| - 1] == '\\' then 1 + BackslashRun(s[..|s| - 1]) else 0
  }

  // The quotes behind an even number of backslashes.
  function QuoteCount(s: string): nat {
    if s == "" then 0
    else
      var front := s[..|s| - 1];
      QuoteCount(front) + if s[|s| - 1] == '"' && BackslashRun(front) % 2 == 0 then 1 else 0
  }

  lemma {:induction false} ScanParity(s: string)
    ensures Scan(START, s).escaped <==> BackslashRun(s) % 2 == 1
    ensures Scan(START, s).inQuote <==> QuoteCount(s) % 2 == 1
  {
    if s != "" {
      ScanParity(s[..|s| - 1]);
    }
  }

  // The tokenizer rejects a line exactly if it ends with an odd number of backslashes, or else
  // has an odd number of quotes that are not escaped.
  lemma ErrorsExact(s: string)
    ensures Scan(START, s).Finish().TrailingBackslash? <==> BackslashRun(s) % 2 == 1
    ensures Scan(START, s).Finish().UnclosedQuote? <==> BackslashRun(s) % 2 == 0 && QuoteCount(s) % 2 == 1
  {
    ScanParity(s);
  }
}
