/** Compiling a log pattern into texts and flags. */
module PatternCompiler {
  import opened Decimal
  import opened Padding
  import opened CircularQueue
  import opened Sequences

  // What the compiler finds in a pattern: literal text, or a flag with its padding.
  datatype Item = Text(s: string) | Call(flag: char, pad: PaddingInfo)

  // ---------- padding specifications ----------

  // How many digits a string begins with.
  function DigitRun(s: string): (n: nat)
    ensures n <= |s| && AllDigits(s[..n])
    ensures n < |s| ==> !IsDigit(s[n])
  {
    if s != "" && IsDigit(s[0]) then
      var n := DigitRun(s[1..]);
      assert s[..n + 1] == [s[0]] + s[1..][..n];
      n + 1
    else 0
  }

  function SideMark(side: Side): string {
    match side
    case Left => ""
    case Right => "-"
    case Center => "="
  }

  function AtMost(width: nat): nat { if width <= MAX_WIDTH then width else MAX_WIDTH }

  // The width and the truncation mark at the start of a string, after a side mark that took k
  // characters.
  function WidthSpec(s: string, side: Side, k: nat): (r: (PaddingInfo, nat))
    ensures r.0.width <= MAX_WIDTH && k <= r.1 <= k + |s|
  {
    var n := DigitRun(s);
    if n == 0 then (NO_PADDING, k)
    else
      var truncate := n < |s| && s[n] == '!';
      (PaddingInfo(AtMost(Value(s[..n]) % SIZE_MODULUS), side, truncate, true), k + n + if truncate then 1 else 0)
  }

  // The padding at the start of a string, and the number of characters it takes. The width is
  // computed in size_t and then limited.
  function PadSpec(s: string): (r: (PaddingInfo, nat))
    ensures r.0.width <= MAX_WIDTH && r.1 <= |s|
  {
    if s != "" && s[0] == '-' then WidthSpec(s[1..], Right, 1)
    else if s != "" && s[0] == '=' then WidthSpec(s[1..], Center, 1)
    else WidthSpec(s, Left, 0)
  }

  // ---------- patterns ----------

  function Pending(user: string): seq<Item> {
    if user != "" then [Text(user)] else []
  }

  // The items of a pattern, given the text collected before it.
  function Compile(s: string, user: string): seq<Item>
    decreases |s|, 1
  {
    if s == "" then Pending(user)
    else if s[0] != '%' then Compile(s[1..], user + [s[0]])
    else Pending(user) + CompileFlag(s[1..])
  }

  // The items of what follows a percent sign; a pattern that ends before its flag has none.
  function CompileFlag(s: string): seq<Item>
    decreases |s|, 2
  {
    var (pad, n) := PadSpec(s);
    if n == |s| then [] else [Call(s[n], pad)] + Compile(s[n + 1..], "")
  }

  // ---------- flags ----------

  datatype Formatter =
    | Chars(s: string)
    | BuiltIn(flag: char, pad: PaddingInfo)
    | Custom(flag: char, pad: PaddingInfo)

  predicate KnownFlag(flag: char) {
    || flag in {'+', 'n', 'l', 'L', 't', 'v', 'a', 'A', 'b', 'h', 'B', 'c', 'C', 'Y', 'D', 'x'}
    || flag in {'m', 'd', 'H', 'I', 'M', 'S', 'e', 'f', 'F', 'E', 'p', 'r', 'R', 'T', 'X', 'z'}
    || flag in {'P', '^', '$', '@', 's', 'g', '#', '!', 'u', 'i', 'o', 'O', '&'}
  }

  // The formatters for one flag. An unknown flag stands for itself, unless a '!' before it was
  // taken for a truncation mark: then that '!' is the function-name flag.
  function HandleFlag(custom: set<char>, flag: char, pad: PaddingInfo): seq<Formatter> {
    if flag in custom then [Custom(flag, pad)]
    else if flag == '%' then [Chars("%")]
    else if KnownFlag(flag) then [BuiltIn(flag, pad)]
    else if !pad.truncate then [Chars(['%', flag])]
    else [BuiltIn('!', pad.(truncate := false)), Chars([flag])]
  }

  function FormattersOfItem(custom: set<char>, item: Item): seq<Formatter> {
    match item
    case Text(s) => [Chars(s)]
    case Call(flag, pad) => HandleFlag(custom, flag, pad)
  }

  function FormatterOf(custom: set<char>): Item -> seq<Formatter> {
    item => FormattersOfItem(custom, item)
  }

  function FlatMap<A, B>(f: A -> seq<B>, xs: seq<A>): seq<B> {
    if xs == [] then [] else FlatMap(f, xs[..|xs| - 1]) + f(xs[|xs| - 1])
  }

  function FormattersOf(custom: set<char>, items: seq<Item>): seq<Formatter> {
    FlatMap(FormatterOf(custom), items)
  }

  lemma {:induction false} FlatMapConcat<A, B>(f: A -> seq<B>, a: seq<A>, b: seq<A>)
    ensures FlatMap(f, a + b) == FlatMap(f, a) + FlatMap(f, b)
  {
    if b == [] {
      assert a + b == a;
    } else {
      assert (a + b)[..|a + b| - 1] == a + b[..|b| - 1];
      FlatMapConcat(f, a, b[..|b| - 1]);
    }
  }

  lemma FlatMapOne<A, B>(f: A -> seq<B>, x: A)
    ensures FlatMap(f, [x]) == f(x)
  {
    assert [x][..0] == [];
    assert FlatMap(f, []) == [];
  }

  lemma FormattersConcat(custom: set<char>, a: seq<Item>, b: seq<Item>)
    ensures FormattersOf(custom, a + b) == FormattersOf(custom, a) + FormattersOf(custom, b)
  {
    FlatMapConcat(FormatterOf(custom), a, b);
  }

  lemma OneDigit(s: string)
    requires |s| == 1 && IsDigit(s[0])
    ensures AllDigits(s) && Value(s) == DigitValue(s[0])
  {
    assert s[..0] == "";
  }

  lemma {:induction false} DigitRunIs(s: string, n: nat)
    requires n <= |s| && AllDigits(s[..n]) && (n < |s| ==> !IsDigit(s[n]))
    ensures DigitRun(s) == n
  {
    if n > 0 {
      assert s[0] == s[..n][0];
      assert s[1..][..n - 1] == s[..n][1..];
      DigitRunIs(s[1..], n - 1);
    }
  }

  lemma WidthSpecOf(s: string, n: nat, side: Side, k: nat)
    requires 0 < n <= |s| && AllDigits(s[..n]) && (n < |s| ==> !IsDigit(s[n]))
    ensures var truncate := n < |s| && s[n] == '!';
            WidthSpec(s, side, k) ==
            (PaddingInfo(AtMost(Value(s[..n]) % SIZE_MODULUS), side, truncate, true), k + n + if truncate then 1 else 0)
  {
    DigitRunIs(s, n);
  }

  lemma WrapStep(a: nat, digit: nat)
    ensures (a % SIZE_MODULUS * 10 + digit) % SIZE_MODULUS == (a * 10 + digit) % SIZE_MODULUS
  {
  }

  lemma OneItem(custom: set<char>, item: Item)
    ensures FormattersOf(custom, [item]) == FormattersOfItem(custom, item)
  {
    FlatMapOne(FormatterOf(custom), item);
  }

  lemma TextTurn(pattern: string, it: nat, user: string)
    requires it < |pattern| && pattern[it] != '%'
    ensures Compile(pattern[it..], user) == Compile(pattern[it + 1..], user + [pattern[it]])
  {
    assert pattern[it..][1..] == pattern[it + 1..];
  }

  // What the turn of the loop at a percent sign finds: the text before it, and the flag if there is one.
  function TurnItems(pattern: string, it: nat, user: string): seq<Item>
    requires it < |pattern|
  {
    var (pad, n) := PadSpec(pattern[it + 1..]);
    var at := it + 1 + n;
    if at == |pattern| then Pending(user) else Pending(user) + [Call(pattern[at], pad)]
  }

  // The formatters of the flag at the padding that starts somewhere; none if the pattern ends there.
  function FlagFormatters(custom: set<char>, pattern: string, start: nat): seq<Formatter>
    requires start <= |pattern|
  {
    var (pad, n) := PadSpec(pattern[start..]);
    if start + n == |pattern| then [] else HandleFlag(custom, pattern[start + n], pad)
  }

  lemma TurnAdds(custom: set<char>, pattern: string, it: nat, user: string)
    requires it < |pattern|
    ensures FormattersOf(custom, TurnItems(pattern, it, user)) ==
            FormattersOf(custom, Pending(user)) + FlagFormatters(custom, pattern, it + 1)
  {
    var (pad, n) := PadSpec(pattern[it + 1..]);
    var at := it + 1 + n;
    if at < |pattern| {
      FormattersConcat(custom, Pending(user), [Call(pattern[at], pad)]);
      OneItem(custom, Call(pattern[at], pad));
    } else {
      assert FormattersOf(custom, Pending(user)) + [] == FormattersOf(custom, Pending(user));
    }
  }

  // The formatters so far are those of the items found so far, and what remains completes them.
  ghost predicate Progress(custom: set<char>, formatters: seq<Formatter>, items: seq<Item>,
                           pattern: string, it: nat, user: string)
    requires it <= |pattern|
  {
    formatters == FormattersOf(custom, items) && items + Compile(pattern[it..], user) == Compile(pattern, "")
  }

  lemma ProgressStarts(custom: set<char>, pattern: string)
    ensures Progress(custom, [], [], pattern, 0, "")
  {
    assert pattern[0..] == pattern && [] + Compile(pattern, "") == Compile(pattern, "");
  }

  lemma ProgressAfterText(custom: set<char>, formatters: seq<Formatter>, items: seq<Item>,
                          pattern: string, it: nat, user: string)
    requires it < |pattern| && pattern[it] != '%' && Progress(custom, formatters, items, pattern, it, user)
    ensures Progress(custom, formatters, items, pattern, it + 1, user + [pattern[it]])
  {
    TextTurn(pattern, it, user);
  }

  lemma ItemsMove(custom: set<char>, formatters: seq<Formatter>, items: seq<Item>, found: seq<Item>, rest: seq<Item>)
    requires formatters == FormattersOf(custom, items)
    ensures formatters + FormattersOf(custom, found) == FormattersOf(custom, items + found)
    ensures items + (found + rest) == (items + found) + rest
  {
    FormattersConcat(custom, items, found);
  }

  // What remains after the turn of the loop at a percent sign.
  function AfterTurn(pattern: string, it: nat): seq<Item>
    requires it < |pattern|
  {
    var at := it + 1 + PadSpec(pattern[it + 1..]).1;
    if at == |pattern| then [] else Compile(pattern[at + 1..], "")
  }

  lemma CompileAtPercent(pattern: string, it: nat, user: string)
    requires it < |pattern| && pattern[it] == '%'
    ensures Compile(pattern[it..], user) == TurnItems(pattern, it, user) + AfterTurn(pattern, it)
  {
    var s := pattern[it + 1..];
    var n := PadSpec(s).1;
    assert pattern[it..][1..] == s && Compile(pattern[it..], user) == Pending(user) + CompileFlag(s);
    if n < |s| {
      assert s[n + 1..] == pattern[it + 2 + n..];
      Associative(Pending(user), [Call(s[n], PadSpec(s).0)], Compile(s[n + 1..], ""));
    }
  }

  lemma ProgressAfterFlag(custom: set<char>, formatters: seq<Formatter>, items: seq<Item>,
                          pattern: string, it: nat, user: string)
    requires it < |pattern| && pattern[it] == '%' && Progress(custom, formatters, items, pattern, it, user)
    ensures var found := TurnItems(pattern, it, user);
            && formatters + FormattersOf(custom, found) == FormattersOf(custom, items + found)
            && (items + found) + AfterTurn(pattern, it) == Compile(pattern, "")
  {
    CompileAtPercent(pattern, it, user);
    ItemsMove(custom, formatters, items, TurnItems(pattern, it, user), AfterTurn(pattern, it));
  }

  lemma ProgressTurn(custom: set<char>, formatters: seq<Formatter>, items: seq<Item>,
                     pattern: string, it: nat, user: string)
    requires it < |pattern| && pattern[it] == '%' && Progress(custom, formatters, items, pattern, it, user)
    ensures var at, found := it + 1 + PadSpec(pattern[it + 1..]).1, TurnItems(pattern, it, user);
            var after := formatters + FormattersOf(custom, found);
            if at == |pattern| then after == FormattersOf(custom, Compile(pattern, ""))
            else Progress(custom, after, items + found, pattern, at + 1, "")
  {
    ProgressAfterFlag(custom, formatters, items, pattern, it, user);
    var found := TurnItems(pattern, it, user);
    assert items + found + [] == items + found;
  }

  lemma ProgressEnds(custom: set<char>, formatters: seq<Formatter>, items: seq<Item>, pattern: string, user: string)
    requires Progress(custom, formatters, items, pattern, |pattern|, user)
    ensures formatters + FormattersOf(custom, Pending(user)) == FormattersOf(custom, Compile(pattern, ""))
  {
    assert pattern[|pattern|..] == "";
    FormattersConcat(custom, items, Pending(user));
  }

  class PatternFormatter {
    const customFlags: set<char>
    var formatters: seq<Formatter>

    constructor (customFlags: set<char>)
      ensures this.customFlags == customFlags && formatters == []
    {
      this.customFlags := customFlags;
      formatters := [];
    }

    // Reads the digits at `start`, of which there is at least one.
    static method ReadWidth(pattern: string, start: nat) returns (width: nat, it: nat)
      requires start < |pattern| && IsDigit(pattern[start])
      ensures start < it <= |pattern| && AllDigits(pattern[start..it])
      ensures it < |pattern| ==> !IsDigit(pattern[it])
      ensures width == Value(pattern[start..it]) % SIZE_MODULUS
    {
      width := DigitValue(pattern[start]);
      it := start + 1;
      OneDigit(pattern[start..it]);
      while it < |pattern| && IsDigit(pattern[it])
        invariant start < it <= |pattern|
        invariant AllDigits(pattern[start..it]) && width == Value(pattern[start..it]) % SIZE_MODULUS
      {
        var digit := DigitValue(pattern[it]);
        assert pattern[start..it + 1] == pattern[start..it] + [pattern[it]];
        assert pattern[start..it + 1][..it - start] == pattern[start..it];
        WrapStep(Value(pattern[start..it]), digit);
        width := (width * 10 + digit) % SIZE_MODULUS;
        it := it + 1;
      }
    }

    // Reads a padding specification at `start` and returns where it ends.
    static method HandlePadspec(pattern: string, start: nat) returns (pad: PaddingInfo, it: nat)
      requires start <= |pattern|
      ensures (pad, it - start) == PadSpec(pattern[start..])
      ensures start <= it <= |pattern|
    {
      it := start;
      if it == |pattern| {
        return NO_PADDING, it;
      }
      var side := Left;
      if pattern[it] == '-' {
        side := Right;
        it := it + 1;
      } else if pattern[it] == '=' {
        side := Center;
        it := it + 1;
      }
      ghost var k := it - start;
      assert k == 1 ==> pattern[start..][1..] == pattern[it..];
      assert PadSpec(pattern[start..]) == WidthSpec(pattern[it..], side, k);
      pad, it := HandleWidth(pattern, it, side, k);
    }

    // The rest of handle_padspec_, after the side mark.
    static method HandleWidth(pattern: string, start: nat, side: Side, ghost k: nat) returns (pad: PaddingInfo, it: nat)
      requires start <= |pattern|
      ensures (pad, it - start + k) == WidthSpec(pattern[start..], side, k)
      ensures start <= it <= |pattern|
    {
      it := start;
      if it == |pattern| || !IsDigit(pattern[it]) {
        DigitRunIs(pattern[it..], 0);
        return NO_PADDING, it;
      }
      var width;
      width, it := ReadWidth(pattern, it);
      assert pattern[start..][..it - start] == pattern[start..it];
      WidthSpecOf(pattern[start..], it - start, side, k);
      var truncate := false;
      if it < |pattern| && pattern[it] == '!' {
        truncate := true;
        it := it + 1;
      }
      pad := PaddingInfo(AtMost(width), side, truncate, true);
    }

    // The padding and the flag after a percent sign; a pattern that ends there has no flag.
    method AddFlag(pattern: string, start: nat) returns (at: nat)
      requires start <= |pattern|
      modifies this
      ensures at == start + PadSpec(pattern[start..]).1 <= |pattern|
      ensures formatters == old(formatters) + FlagFormatters(customFlags, pattern, start)
    {
      var pad;
      pad, at := HandlePadspec(pattern, start);
      if at < |pattern| {
        formatters := formatters + HandleFlag(customFlags, pattern[at], pad);
      }
    }

    method CompilePattern(pattern: string)
      modifies this
      ensures formatters == FormattersOf(customFlags, Compile(pattern, ""))
    {
      formatters := [];
      var userChars := "";
      var it: nat := 0;
      ghost var items: seq<Item> := [];  // found so far
      ProgressStarts(customFlags, pattern);
      while it < |pattern|
        invariant 0 <= it <= |pattern|
        invariant Progress(customFlags, formatters, items, pattern, it, userChars)
      {
        if pattern[it] == '%' {
          ProgressTurn(customFlags, formatters, items, pattern, it, userChars);
          var at := TurnAtPercent(pattern, it, userChars);
          if at == |pattern| {
            return;
          }
          items := items + TurnItems(pattern, it, userChars);
          userChars := "";
          it := at + 1;
        } else {
          ProgressAfterText(customFlags, formatters, items, pattern, it, userChars);
          userChars := userChars + [pattern[it]];
          it := it + 1;
        }
      }
      ProgressEnds(customFlags, formatters, items, pattern, userChars);
      AppendText(userChars);
    }

    // The turn of the loop at a percent sign: flush the text, read the padding, add the flag.
    method TurnAtPercent(pattern: string, it: nat, userChars: string) returns (at: nat)
      requires it < |pattern| && pattern[it] == '%'
      modifies this
      ensures at == it + 1 + PadSpec(pattern[it + 1..]).1 <= |pattern|
      ensures formatters == old(formatters) + FormattersOf(customFlags, TurnItems(pattern, it, userChars))
    {
      TurnAdds(customFlags, pattern, it, userChars);
      ghost var text := FormattersOf(customFlags, Pending(userChars));
      AppendText(userChars);
      at := AddFlag(pattern, it + 1);
      Associative(old(formatters), text, FlagFormatters(customFlags, pattern, it + 1));
    }

    // The text collected so far, if any.
    method AppendText(userChars: string)
      modifies this
      ensures formatters == old(formatters) + FormattersOf(customFlags, Pending(userChars))
    {
      OneItem(customFlags, Text(userChars));
      if userChars != "" {
        formatters := formatters + [Chars(userChars)];
      }
    }
  }

  // ---------- printing ----------

  function PrintPad(pad: PaddingInfo): string {
    if !pad.enabled then ""
    else
      SideMark(pad.side) + Dec(pad.width) + if pad.truncate then "!" else ""
  }

  function PrintItem(item: Item): string {
    match item
    case Text(s) => s
    case Call(flag, pad) => "%" + (PrintPad(pad) + [flag])
  }

  function Print(items: seq<Item>): string {
    if items == [] then "" else PrintItem(items[0]) + Print(items[1..])
  }

  // A flag that can be told from the padding before it.
  predicate Plain(flag: char, pad: PaddingInfo) {
    && !IsDigit(flag)
    && (if pad.enabled then pad.width <= 64 && (flag == '!' ==> pad.truncate)
        else pad == NO_PADDING && flag != '-' && flag != '=')
  }

  predicate PrintableItem(item: Item) {
    match item
    case Text(s) => s != "" && '%' !in s
    case Call(flag, pad) => Plain(flag, pad)
  }

  predicate Printable(items: seq<Item>) {
    && (forall i :: 0 <= i < |items| ==> PrintableItem(items[i]))
    && (forall i :: 0 <= i < |items| - 1 ==> !(items[i].Text? && items[i + 1].Text?))
  }

  // The side a mark asks for.
  function SideOf(mark: string): Side {
    if mark == "-" then Right else if mark == "=" then Center else Left
  }

  lemma MarkSkipped(mark: string, after: string)
    requires mark in {"", "-", "="}
    requires mark == "" ==> after == "" || (after[0] != '-' && after[0] != '=')
    ensures PadSpec(mark + after) == WidthSpec(after, SideOf(mark), |mark|)
  {
    var s := mark + after;
    if mark == "" {
      assert s == after;
    } else {
      assert s[0] == mark[0] && s[1..] == after;
    }
  }

  // The first m characters of a text are a side mark, or m is 0, and n digits follow, not more.
  predicate MarkAndDigits(text: string, m: nat, n: nat) {
    && m <= 1 && m + n <= |text|
    && (m == 1 ==> text[0] == '-' || text[0] == '=')
    && AllDigits(text[m..m + n]) && (m + n < |text| ==> !IsDigit(text[m + n]))
  }

  lemma WidthAt(text: string, m: nat, n: nat, side: Side)
    requires MarkAndDigits(text, m, n) && n > 0
    ensures var bang := m + n < |text| && text[m + n] == '!';
            WidthSpec(text[m..], side, m) ==
            (PaddingInfo(AtMost(Value(text[m..m + n]) % SIZE_MODULUS), side, bang, true), m + n + if bang then 1 else 0)
  {
    assert text[m..][..n] == text[m..m + n];
    assert m + n < |text| ==> text[m..][n] == text[m + n];
    WidthSpecOf(text[m..], n, side, m);
  }

  // They denote a padding: the value of the digits in size_t, but at most 64, on the side of the
  // mark. A '!' behind them belongs to it; it ends there, whatever comes after.
  lemma PaddingDenoted(text: string, m: nat, n: nat)
    requires MarkAndDigits(text, m, n) && n > 0
    ensures var width, bang := Value(text[m..m + n]) % 0x1_0000_0000_0000_0000, m + n < |text| && text[m + n] == '!';
            var side := if m == 0 then Left else if text[0] == '-' then Right else Center;
            PadSpec(text) == (PaddingInfo(if width <= 64 then width else 64, side, bang, true),
                              m + n + if bang then 1 else 0)
  {
    WidthAt(text, m, n, SideOf(text[..m]));
    assert text == text[..m] + text[m..] && text[m..][0] == text[m..m + n][0];
    MarkSkipped(text[..m], text[m..]);
  }

  // Without digits there is no padding, and the mark is dropped.
  lemma NoPaddingDenoted(mark: string, rest: string)
    requires mark in {"", "-", "="} && (rest != "" ==> !IsDigit(rest[0]))
    requires mark == "" && rest != "" ==> rest[0] != '-' && rest[0] != '='
    ensures PadSpec(mark + rest) == (PaddingInfo(0, Left, false, false), |mark|)
  {
    DigitRunIs(rest, 0);
    MarkSkipped(mark, rest);
  }

  lemma FiveParts<T>(a: seq<T>, b: seq<T>, c: seq<T>, d: seq<T>, e: seq<T>)
    ensures a + b + c + d + e == a + (b + (c + (d + e)))
  {
  }

  lemma SideMarks(side: Side)
    ensures SideMark(side) in {"", "-", "="} && SideOf(SideMark(side)) == side
  {
  }

  lemma SmallWidth(width: nat)
    requires width <= 64
    ensures AllDigits(Dec(width)) && Dec(width) != "" && Value(Dec(width)) % 0x1_0000_0000_0000_0000 == width
  {
    DecReadsBack(width);
  }

  lemma Parts(mark: string, digits: string, tail: string)
    requires mark in {"", "-", "="} && digits != "" && AllDigits(digits) && (tail != "" ==> !IsDigit(tail[0]))
    ensures var text, m, n := mark + (digits + tail), |mark|, |digits|;
            && MarkAndDigits(text, m, n) && text[..m] == mark && text[m..m + n] == digits
            && (m + n < |text| <==> tail != "") && (tail != "" ==> text[m + n] == tail[0])
  {
    var text, m, n := mark + (digits + tail), |mark|, |digits|;
    assert text[..m] == mark && text[m..m + n] == digits;
  }

  lemma PaddingReadsBack(width: nat, side: Side, tail: string)
    requires width <= 64 && tail != "" && !IsDigit(tail[0])
    ensures var bang := tail[0] == '!';
            PadSpec(SideMark(side) + (Dec(width) + tail)) ==
            (PaddingInfo(width, side, bang, true), |SideMark(side)| + |Dec(width)| + if bang then 1 else 0)
  {
    SmallWidth(width);
    SideMarks(side);
    Parts(SideMark(side), Dec(width), tail);
    PaddingDenoted(SideMark(side) + (Dec(width) + tail), |SideMark(side)|, |Dec(width)|);
  }

  lemma PadSpecReadsBack(flag: char, pad: PaddingInfo, rest: string)
    requires Plain(flag, pad)
    ensures PadSpec(PrintPad(pad) + [flag] + rest) == (pad, |PrintPad(pad)|)
  {
    if pad.enabled {
      var bang := if pad.truncate then "!" else "";
      PaddingReadsBack(pad.width, pad.side, bang + ([flag] + rest));
      FiveParts(SideMark(pad.side), Dec(pad.width), bang, [flag], rest);
    } else {
      assert PrintPad(pad) + [flag] + rest == "" + ([flag] + rest);
      NoPaddingDenoted("", [flag] + rest);
    }
  }

  lemma {:induction false} CompileText(t: string, rest: string, user: string)
    requires '%' !in t
    ensures Compile(t + rest, user) == Compile(rest, user + t)
    decreases |t|
  {
    if t == "" {
      assert t + rest == rest && user + t == user;
    } else {
      assert (t + rest)[1..] == t[1..] + rest && (t + rest)[0] == t[0];
      CompileText(t[1..], rest, user + [t[0]]);
      assert user + [t[0]] + t[1..] == user + t;
    }
  }

  lemma CompileFlagCall(flag: char, pad: PaddingInfo, rest: string)
    requires Plain(flag, pad)
    ensures CompileFlag(PrintPad(pad) + [flag] + rest) == [Call(flag, pad)] + Compile(rest, "")
  {
    var s, n := PrintPad(pad) + [flag] + rest, |PrintPad(pad)|;
    PadSpecReadsBack(flag, pad, rest);
    assert s[n] == flag && s[n + 1..] == rest;
  }

  lemma AtPercent(s: string, user: string)
    ensures Compile("%" + s, user) == Pending(user) + CompileFlag(s)
  {
    assert ("%" + s)[1..] == s;
  }

  lemma CompileCall(flag: char, pad: PaddingInfo, rest: string, user: string)
    requires Plain(flag, pad)
    ensures Compile("%" + (PrintPad(pad) + [flag]) + rest, user) ==
            Pending(user) + ([Call(flag, pad)] + Compile(rest, ""))
  {
    CompileFlagCall(flag, pad, rest);
    AtPercent(PrintPad(pad) + [flag] + rest, user);
    Associative("%", PrintPad(pad) + [flag], rest);
  }

  lemma PendingFirst(rest: string, user: string)
    requires rest == "" || rest[0] == '%'
    ensures Compile(rest, user) == Pending(user) + Compile(rest, "")
  {
  }

  lemma Follows(items: seq<Item>, rest: string)
    requires Printable(items) && (items != [] ==> items[0].Call?) && (rest == "" || rest[0] == '%')
    ensures Print(items) + rest == "" || (Print(items) + rest)[0] == '%'
  {
  }

  // One printed item, in front of what may follow it.
  lemma CompileItem(item: Item, rest: string)
    requires PrintableItem(item) && (item.Text? ==> rest == "" || rest[0] == '%')
    ensures Compile(PrintItem(item) + rest, "") == [item] + Compile(rest, "")
  {
    match item
    case Call(flag, pad) =>
      CompileCall(flag, pad, rest, "");
    case Text(s) =>
      CompileText(s, rest, "");
      assert "" + s == s;
      PendingFirst(rest, s);
  }

  lemma Unfold(items: seq<Item>)
    requires Printable(items) && items != []
    ensures Printable(items[1..]) && PrintableItem(items[0]) && items == [items[0]] + items[1..]
    ensures items[0].Text? && items[1..] != [] ==> items[1..][0].Call?
  {
    assert |items| > 1 ==> items[1..][0] == items[1] && !(items[0].Text? && items[1].Text?);
  }

  // A printed pattern compiles to its items, whatever flag comes after it.
  lemma {:induction false} CompilePrinted(items: seq<Item>, rest: string)
    requires Printable(items) && (rest == "" || rest[0] == '%')
    ensures Compile(Print(items) + rest, "") == items + Compile(rest, "")
    decreases |items|
  {
    if items == [] {
      assert "" + rest == rest;
    } else {
      var item, others := items[0], items[1..];
      Unfold(items);
      CompilePrinted(others, rest);
      Associative(PrintItem(item), Print(others), rest);
      Associative([item], others, Compile(rest, ""));
      if item.Text? {
        Follows(others, rest);
      }
      CompileItem(item, Print(others) + rest);
    }
  }

  // Compiling a printed pattern gives back its texts and flags.
  lemma CompileRoundTrip(items: seq<Item>)
    requires Printable(items)
    ensures Compile(Print(items), "") == items
  {
    CompilePrinted(items, "");
    assert Print(items) + "" == Print(items) && items + [] == items;
  }

  // A percent sign and a padding at the end of a pattern, without a flag, are dropped.
  lemma UnfinishedFlagDropped(items: seq<Item>, mark: string, digits: string, bang: bool)
    requires Printable(items) && mark in {"", "-", "="} && AllDigits(digits) && (bang ==> digits != "")
    ensures Compile(Print(items) + ("%" + (mark + (digits + if bang then "!" else ""))), "") == items
  {
    var tail := if bang then "!" else "";
    var p := mark + (digits + tail);
    if digits == "" {
      assert p == mark + "";
      NoPaddingDenoted(mark, "");
    } else {
      Parts(mark, digits, tail);
      PaddingDenoted(p, |mark|, |digits|);
    }
    AtPercent(p, "");
    CompilePrinted(items, "%" + p);
    assert items + [] == items;
  }

  // ---------- the formatters of a pattern ----------

  lemma PrintedBetween(custom: set<char>, before: seq<Item>, item: Item, after: seq<Item>)
    requires Printable(before + [item] + after)
    ensures FormattersOf(custom, Compile(Print(before + [item] + after), "")) ==
            FormattersOf(custom, before) + FormattersOfItem(custom, item) + FormattersOf(custom, after)
  {
    CompileRoundTrip(before + [item] + after);
    FormattersConcat(custom, before + [item], after);
    FormattersConcat(custom, before, [item]);
    OneItem(custom, item);
  }

  // A text in a pattern gives one formatter that writes it.
  lemma TextIsWritten(custom: set<char>, before: seq<Item>, s: string, after: seq<Item>)
    requires Printable(before + [Text(s)] + after)
    ensures FormattersOf(custom, Compile(Print(before + [Text(s)] + after), "")) ==
            FormattersOf(custom, before) + [Chars(s)] + FormattersOf(custom, after)
  {
    PrintedBetween(custom, before, Text(s), after);
  }

  // A flag in a pattern gives: its custom formatter if there is one; else a percent sign for a
  // percent sign; else the built-in formatter of a built-in flag; else the flag as it was written,
  // except that a '!' that had been taken for a truncation mark becomes the function name.
  lemma FlagIsFormatted(custom: set<char>, before: seq<Item>, flag: char, pad: PaddingInfo, after: seq<Item>)
    requires Printable(before + [Call(flag, pad)] + after)
    ensures FormattersOf(custom, Compile(Print(before + [Call(flag, pad)] + after), "")) ==
            FormattersOf(custom, before)
            + (if flag in custom then [Custom(flag, pad)]
               else if flag == '%' then [Chars("%")]
               else if || flag in {'+', 'n', 'l', 'L', 't', 'v', 'a', 'A', 'b', 'h', 'B', 'c', 'C', 'Y', 'D', 'x'}
                       || flag in {'m', 'd', 'H', 'I', 'M', 'S', 'e', 'f', 'F', 'E', 'p', 'r', 'R', 'T', 'X', 'z'}
                       || flag in {'P', '^', '$', '@', 's', 'g', '#', '!', 'u', 'i', 'o', 'O', '&'}
                    then [BuiltIn(flag, pad)]
               else if !pad.truncate then [Chars("%" + [flag])]
               else [BuiltIn('!', PaddingInfo(pad.width, pad.side, false, pad.enabled)), Chars([flag])])
            + FormattersOf(custom, after)
  {
    PrintedBetween(custom, before, Call(flag, pad), after);
    assert "%" + [flag] == ['%', flag];
  }

  // The message flag alone.
  lemma MessagePattern()
    ensures FormattersOf({}, Compile("%v", "")) == [BuiltIn('v', PaddingInfo(0, Left, false, false))]
  {
    var items := [Call('v', NO_PADDING)];
    assert [] + items + [] == items && items[1..] == [];
    assert Print(items) == PrintItem(items[0]) + "" == "%v";
    FlagIsFormatted({}, [], 'v', NO_PADDING, []);
  }
}
