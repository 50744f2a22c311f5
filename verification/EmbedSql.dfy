/** The build-time embedder: SQL files become lists of C++ string literals, one per
    statement, without comments and with whitespace squeezed. */
module EmbedSql {
  import opened Wrappers
  import opened Splitting

  lemma Regroup(a: string, b: string, c: string)
    ensures a + (b + c) == a + b + c
  {
  }

  // ----- comments

  predicate Dashes(s: string) {
    |s| >= 2 && s[0] == '-' && s[1] == '-'
  }

  /** From the first line feed on. */
  function FromNewline(s: string): (r: string)
    ensures |r| <= |s| && (r == "" || r[0] == '\n')
  {
    if s == "" || s[0] == '\n' then s else FromNewline(s[1..])
  }

  function Strip(s: string): string
    decreases |s|
  {
    if s == "" then ""
    else if Dashes(s) then assert |FromNewline(s[1..])| < |s|; Strip(FromNewline(s))
    else [s[0]] + Strip(s[1..])
  }

  /** Some two neighbours are dashes. */
  ghost predicate HasDashes(s: string) {
    exists k :: 0 <= k < |s| && Dashes(s[k..])
  }

  /** The part of a line before its first pair of dashes. */
  function Cut(line: string): string {
    if line == "" || Dashes(line) then "" else [line[0]] + Cut(line[1..])
  }

  function CutAll(lines: seq<string>): (r: seq<string>)
    ensures |r| == |lines|
  {
    if lines == [] then [] else [Cut(lines[0])] + CutAll(lines[1..])
  }

  lemma {:induction false} SkippedLine(s: string)
    ensures Split(s, '\n')[1..] == Split(FromNewline(s), '\n')[1..]
    ensures Split(FromNewline(s), '\n')[0] == ""
  {
    if s != "" && s[0] != '\n' {
      SkippedLine(s[1..]);
    }
  }

  lemma SplitDashes(s: string)
    ensures Dashes(s) <==> Dashes(Split(s, '\n')[0])
  {
    if |s| >= 2 {
      assert s[1..][1..] == s[2..] && s[1..][0] == s[1];
    }
  }

  /** Stripping cuts every line at its first pair of dashes, and does no more. */
  lemma {:induction false} StripsEachLine(s: string)
    ensures Strip(s) == Join(CutAll(Split(s, '\n')), '\n')
    decreases |s|
  {
    hide Join;
    SplitDashes(s);
    if s == "" {
      assert CutAll([""]) == [""];
      JoinOne("", '\n');
    } else if Dashes(s) {
      var t := FromNewline(s);
      SkippedLine(s);
      assert |FromNewline(s[1..])| < |s|;
      StripsEachLine(t);
    } else {
      StripsEachLine(s[1..]);
      var lines := Split(s[1..], '\n');
      if s[0] == '\n' {
        assert CutAll([""] + lines) == [""] + CutAll(lines);
        JoinBlank(CutAll(lines), '\n');
      } else {
        JoinHead(s[0], Cut(lines[0]), CutAll(lines[1..]), '\n');
        var line := [s[0]] + lines[0];
        assert Split(s, '\n') == [line] + lines[1..];
        assert line[1..] == lines[0];
        assert Cut(line) == [s[0]] + Cut(lines[0]);
      }
    }
  }

  lemma HasDashesStep(s: string)
    requires s != ""
    ensures HasDashes(s) <==> Dashes(s) || HasDashes(s[1..])
  {
    if HasDashes(s[1..]) {
      var k :| 0 <= k < |s[1..]| && Dashes(s[1..][k..]);
      assert s[1..][k..] == s[k + 1..];
    }
    if HasDashes(s) {
      var k :| 0 <= k < |s| && Dashes(s[k..]);
      if k > 0 {
        assert s[1..][k - 1..] == s[k..];
      } else {
        assert s[0..] == s;
      }
    }
    if Dashes(s) {
      assert s[0..] == s;
    }
  }

  /** Nothing that looks like a comment is left, not even one made of two dashes
      that a removed comment stood between. */
  lemma {:induction false} NoDashesLeft(s: string)
    ensures !HasDashes(Strip(s))
    ensures Strip(s) != "" && Strip(s)[0] == '-' ==> s[0] == '-' && !Dashes(s)
    decreases |s|
  {
    if s != "" {
      if Dashes(s) {
        assert |FromNewline(s[1..])| < |s|;
        NoDashesLeft(FromNewline(s));
      } else {
        NoDashesLeft(s[1..]);
        HasDashesStep(Strip(s));
        assert Strip(s)[1..] == Strip(s[1..]);
      }
    }
  }

  /** Stripping leaves a text alone just when it has no comments, so stripping
      twice is stripping once. */
  lemma {:induction false} StripFixed(s: string)
    ensures Strip(s) == s <==> !HasDashes(s)
    ensures Strip(Strip(s)) == Strip(s)
  {
    NoDashesLeft(s);
    NothingToStrip(Strip(s));
    if !HasDashes(s) {
      NothingToStrip(s);
    }
  }

  lemma {:induction false} NothingToStrip(s: string)
    requires !HasDashes(s)
    ensures Strip(s) == s
  {
    if s != "" {
      HasDashesStep(s);
      NothingToStrip(s[1..]);
    }
  }

  method StripComments(sql: string) returns (out: string)
    ensures out == Strip(sql)
  {
    var i := 0;
    out := "";
    assert sql[0..] == sql;
    while i < |sql|
      invariant 0 <= i <= |sql|
      invariant out + Strip(sql[i..]) == Strip(sql)
    {
      ghost var s := sql[i..];
      if i + 1 < |sql| && sql[i] == '-' && sql[i + 1] == '-' {
        while i < |sql| && sql[i] != '\n'
          invariant |sql| - |s| <= i <= |sql|
          invariant FromNewline(sql[i..]) == FromNewline(s)
          decreases |sql| - i
        {
          assert sql[i..][1..] == sql[i + 1..];
          i := i + 1;
        }
      } else {
        assert s[1..] == sql[i + 1..];
        assert out + ([sql[i]] + Strip(s[1..])) == out + [sql[i]] + Strip(s[1..]);
        out := out + [sql[i]];
        i := i + 1;
      }
    }
  }

  // ----- whitespace

  predicate Blank(c: char) {
    c == ' ' || c == '\t'
  }

  predicate Gap(c: char) {
    Blank(c) || c == '\n'
  }

  predicate White(c: char) {
    Gap(c) || c == '\r'
  }

  function SkipBlanks(s: string): (r: string)
    ensures |r| <= |s| && (r == "" || !Blank(r[0]))
  {
    if s != "" && Blank(s[0]) then SkipBlanks(s[1..]) else s
  }

  function SkipGaps(s: string): (r: string)
    ensures |r| <= |s| && (r == "" || !Gap(r[0]))
  {
    if s != "" && Gap(s[0]) then SkipGaps(s[1..]) else s
  }

  /** Collapses runs; `start` says that a line has just begun. */
  function Squeeze(start: bool, s: string): string
    decreases |s|
  {
    if s == "" then ""
    else if Blank(s[0]) then if start then Squeeze(true, SkipBlanks(s[1..])) else " " + Squeeze(false, SkipBlanks(s[1..]))
    else if s[0] == '\n' then if start then Squeeze(true, SkipGaps(s[1..])) else "\n" + Squeeze(true, SkipGaps(s[1..]))
    else [s[0]] + Squeeze(false, s[1..])
  }

  function TrimLeft(s: string): (r: string)
    ensures |r| <= |s| && (r == "" || !White(r[0]))
  {
    if s != "" && White(s[0]) then TrimLeft(s[1..]) else s
  }

  function TrimRight(s: string): (r: string)
    ensures r <= s && (r == "" || !White(r[|r| - 1]))
  {
    if s != "" && White(s[|s| - 1]) then TrimRight(s[..|s| - 1]) else s
  }

  function Trim(s: string): string {
    TrimRight(TrimLeft(s))
  }

  function Normalize(s: string): string {
    Trim(Squeeze(true, s))
  }

  // What is kept: the words, and where lines change.

  /** What separates the last word from the next. */
  datatype Between = Beginning | Nothing | SameLine | NewLine

  function Widen(b: Between, c: char): Between {
    if b.Beginning? then b else if c == '\n' then NewLine else if b.Nothing? then SameLine else b
  }

  function Separator(b: Between): string {
    match b
    case SameLine => " "
    case NewLine => "\n"
    case _ => ""
  }

  /** The words of a text, with one space between two words of a line and one line
      feed between two words of different lines. */
  function Words(b: Between, s: string): string
    decreases |s|
  {
    if s == "" then ""
    else if White(s[0]) then Words(Widen(b, s[0]), s[1..])
    else Separator(b) + [s[0]] + Words(Nothing, s[1..])
  }

  function WordsOf(s: string): string {
    Words(Beginning, s)
  }

  const WHITES := {' ', '\t', '\n', '\r'}

  /** The characters of a text outside a set, in order. */
  function Keep(drop: set<char>, s: string): string {
    if s == "" then "" else (if s[0] in drop then "" else [s[0]]) + Keep(drop, s[1..])
  }

  lemma {:induction false} WordsSkipBlanks(b: Between, s: string)
    requires !b.Nothing?
    ensures Words(b, SkipBlanks(s)) == Words(b, s)
  {
    if s != "" && Blank(s[0]) {
      WordsSkipBlanks(b, s[1..]);
    }
  }

  lemma {:induction false} WordsSkipGaps(b: Between, s: string)
    requires b.Beginning? || b.NewLine?
    ensures Words(b, SkipGaps(s)) == Words(b, s)
  {
    if s != "" && Gap(s[0]) {
      WordsSkipGaps(b, s[1..]);
    }
  }

  lemma WordsOfWhite(b: Between, c: char, rest: string)
    requires White(c)
    ensures Words(b, [c] + rest) == Words(Widen(b, c), rest)
  {
    assert ([c] + rest)[1..] == rest;
  }

  lemma {:induction false} SqueezeKeepsWords(start: bool, b: Between, s: string)
    requires start ==> b.Beginning? || b.NewLine?
    ensures Words(b, Squeeze(start, s)) == Words(b, s)
    decreases |s|
  {
    if s == "" {
    } else if Blank(s[0]) {
      var rest, c := SkipBlanks(s[1..]), Widen(b, ' ');
      WordsSkipBlanks(c, s[1..]);
      SqueezeKeepsWords(start, c, rest);
      if !start {
        WordsOfWhite(b, ' ', Squeeze(start, rest));
      }
    } else if s[0] == '\n' {
      var rest, c := SkipGaps(s[1..]), Widen(b, '\n');
      WordsSkipGaps(c, s[1..]);
      SqueezeKeepsWords(true, c, rest);
      if !start {
        WordsOfWhite(b, '\n', Squeeze(true, rest));
      }
    } else {
      var c := if White(s[0]) then Widen(b, s[0]) else Nothing;
      SqueezeKeepsWords(false, c, s[1..]);
      assert ([s[0]] + Squeeze(false, s[1..]))[1..] == Squeeze(false, s[1..]);
    }
  }

  lemma {:induction false} TrimLeftKeepsWords(s: string)
    ensures WordsOf(TrimLeft(s)) == WordsOf(s)
  {
    if s != "" && White(s[0]) {
      TrimLeftKeepsWords(s[1..]);
    }
  }

  lemma {:induction false} WhiteAtEnd(b: Between, s: string, c: char)
    requires White(c)
    ensures Words(b, s + [c]) == Words(b, s)
    decreases |s|
  {
    if s == "" {
      assert (s + [c])[1..] == "";
    } else {
      WhiteAtEnd(if White(s[0]) then Widen(b, s[0]) else Nothing, s[1..], c);
      assert (s + [c])[1..] == s[1..] + [c];
    }
  }

  lemma {:induction false} TrimRightKeepsWords(s: string)
    ensures WordsOf(TrimRight(s)) == WordsOf(s)
  {
    if s != "" && White(s[|s| - 1]) {
      TrimRightKeepsWords(s[..|s| - 1]);
      WhiteAtEnd(Beginning, s[..|s| - 1], s[|s| - 1]);
      assert s[..|s| - 1] + [s[|s| - 1]] == s;
    }
  }

  /** Normalizing keeps the words and which of them share a line. */
  lemma NormalizeKeepsWords(s: string)
    ensures WordsOf(Normalize(s)) == WordsOf(s)
  {
    SqueezeKeepsWords(true, Beginning, s);
    TrimLeftKeepsWords(Squeeze(true, s));
    TrimRightKeepsWords(TrimLeft(Squeeze(true, s)));
  }

  lemma {:induction false} KeepConcat(drop: set<char>, a: string, b: string)
    ensures Keep(drop, a + b) == Keep(drop, a) + Keep(drop, b)
  {
    if a == "" {
      assert a + b == b;
    } else {
      KeepConcat(drop, a[1..], b);
      var head := if a[0] in drop then "" else [a[0]];
      assert (a + b)[1..] == a[1..] + b && (a + b)[0] == a[0];
      assert Keep(drop, a + b) == head + Keep(drop, a[1..] + b);
      assert Keep(drop, a) == head + Keep(drop, a[1..]);
      hide Keep;
      Regroup(head, Keep(drop, a[1..]), Keep(drop, b));
    }
  }

  lemma SeparatorDropped(drop: set<char>, b: Between)
    requires WHITES <= drop
    ensures Keep(drop, Separator(b)) == ""
  {
  }

  lemma {:induction false} KeptInWords(drop: set<char>, b: Between, s: string)
    requires WHITES <= drop
    ensures Keep(drop, Words(b, s)) == Keep(drop, s)
    decreases |s|
  {
    if s != "" {
      if White(s[0]) {
        KeptInWords(drop, Widen(b, s[0]), s[1..]);
      } else {
        var rest := Words(Nothing, s[1..]);
        KeptInWords(drop, Nothing, s[1..]);
        SeparatorDropped(drop, b);
        hide Separator;
        KeepConcat(drop, Separator(b) + [s[0]], rest);
        KeepConcat(drop, Separator(b), [s[0]]);
        KeepConcat(drop, [s[0]], s[1..]);
        assert [s[0]] + s[1..] == s;
      }
    }
  }

  /** In particular every character but space, tab, CR and LF is kept, in order. */
  lemma NormalizeKeeps(drop: set<char>, s: string)
    requires WHITES <= drop
    ensures Keep(drop, Normalize(s)) == Keep(drop, s)
  {
    NormalizeKeepsWords(s);
    KeptInWords(drop, Beginning, s);
    KeptInWords(drop, Beginning, Normalize(s));
  }

  // What the result looks like.

  /** Whether c can be followed by d in a squeezed text. */
  predicate Follows(c: char, d: char) {
    && (c == ' ' ==> d != ' ')
    && (c == '\n' ==> d != ' ' && d != '\n')
  }

  ghost predicate Squeezed(s: string) {
    && (forall k :: 0 <= k < |s| ==> s[k] != '\t')
    && (forall k :: 0 <= k < |s| - 1 ==> Follows(s[k], s[k + 1]))
  }

  /** Squeezed, and no whitespace at either end. */
  ghost predicate Normal(s: string) {
    Squeezed(s) && (s != "" ==> !White(s[0]) && !White(s[|s| - 1]))
  }

  lemma SqueezedStep(s: string)
    requires s != ""
    ensures Squeezed(s) <==> s[0] != '\t' && Squeezed(s[1..]) && (|s| > 1 ==> Follows(s[0], s[1]))
  {
    var t := s[1..];
    if Squeezed(t) {
      forall k | 0 < k < |s|
        ensures s[k] != '\t' && (k < |s| - 1 && |s| > 1 ==> Follows(s[k], s[k + 1]))
      {
        assert s[k] == t[k - 1];
        if k < |s| - 1 {
          assert Follows(t[k - 1], t[k]);
        }
      }
    }
    if Squeezed(s) {
      forall k | 0 <= k < |t|
        ensures t[k] != '\t' && (k < |t| - 1 ==> Follows(t[k], t[k + 1]))
      {
        assert t[k] == s[k + 1];
        if k < |t| - 1 {
          assert Follows(s[k + 1], s[k + 2]);
        }
      }
    }
  }

  lemma {:induction false} SqueezeSqueezes(start: bool, s: string)
    ensures var r := Squeeze(start, s);
            Squeezed(r) && (r != "" && (start || (s != "" && !Blank(s[0]))) ==> r[0] != ' ') && (r != "" && start ==> r[0] != '\n')
    decreases |s|
  {
    var r := Squeeze(start, s);
    if s != "" {
      var rest := if Blank(s[0]) then SkipBlanks(s[1..]) else if s[0] == '\n' then SkipGaps(s[1..]) else s[1..];
      var line := if Blank(s[0]) then start else s[0] == '\n';
      SqueezeSqueezes(line, rest);
      if r != Squeeze(line, rest) {
        assert r[1..] == Squeeze(line, rest);
        SqueezedStep(r);
      }
    }
  }

  lemma {:induction false} TrimLeftSqueezed(s: string)
    requires Squeezed(s)
    ensures Squeezed(TrimLeft(s))
  {
    if s != "" && White(s[0]) {
      SqueezedStep(s);
      TrimLeftSqueezed(s[1..]);
    }
  }

  lemma {:induction false} SqueezedStays(s: string)
    requires Squeezed(s) && s != ""
    ensures Squeeze(false, s) == s && (!Gap(s[0]) ==> Squeeze(true, s) == s)
  {
    SqueezedStep(s);
    if |s| > 1 {
      SqueezedStays(s[1..]);
    }
  }

  /** A text is normal just when normalizing leaves it alone, and normalizing
      makes it normal; so normalizing twice is normalizing once. */
  lemma NormalizeFixed(s: string)
    ensures Normal(Normalize(s))
    ensures Normalize(s) == s <==> Normal(s)
    ensures Normalize(Normalize(s)) == Normalize(s)
  {
    NormalizeNormal(s);
    NormalStays(Normalize(s));
    if Normal(s) {
      NormalStays(s);
    }
  }

  lemma NormalizeNormal(s: string)
    ensures Normal(Normalize(s))
  {
    SqueezeSqueezes(true, s);
    TrimLeftSqueezed(Squeeze(true, s));
    var t := TrimLeft(Squeeze(true, s));
    var r := TrimRight(t);
    forall k | 0 <= k < |r|
      ensures r[k] != '\t' && (k < |r| - 1 ==> Follows(r[k], r[k + 1]))
    {
      assert r[k] == t[k];
      if k < |r| - 1 {
        assert Follows(t[k], t[k + 1]);
      }
    }
    assert r != "" ==> r[0] == t[0];
  }

  lemma NormalStays(s: string)
    requires Normal(s)
    ensures Normalize(s) == s
  {
    if s != "" {
      SqueezedStays(s);
    }
  }

  /** What squeezing does with the run of whitespace at the front. */
  lemma SqueezeStep(start: bool, s: string)
    requires s != ""
    ensures Blank(s[0]) ==> Squeeze(start, s) == (if start then "" else " ") + Squeeze(start, SkipBlanks(s))
    ensures s[0] == '\n' ==> Squeeze(start, s) == (if start then "" else "\n") + Squeeze(true, SkipGaps(s))
    ensures !Gap(s[0]) ==> Squeeze(start, s) == [s[0]] + Squeeze(false, s[1..])
  {
  }

  /** Whether the text so far ends where a line begins. */
  predicate AtStart(out: string) {
    out == "" || out[|out| - 1] == '\n'
  }

  method NormalizeText(raw: string) returns (r: string)
    ensures r == Normalize(raw)
  {
    var i := 0;
    var out := "";
    assert raw[0..] == raw;
    hide Squeeze, Trim;
    while i < |raw|
      invariant 0 <= i <= |raw|
      invariant out + Squeeze(AtStart(out), raw[i..]) == Squeeze(true, raw)
      invariant i < |raw| && out != "" && AtStart(out) ==> !Gap(raw[i])
    {
      ghost var s, before := raw[i..], out;
      SqueezeStep(AtStart(out), s);
      if raw[i] == ' ' || raw[i] == '\t' {
        i := SkipBlanksFrom(raw, i);
        var prev := if |out| > 0 then out[|out| - 1] else '\n';
        if prev != '\n' {
          out := out + " ";
        }
        Regroup(before, if prev == '\n' then "" else " ", Squeeze(AtStart(before), raw[i..]));
      } else if raw[i] == '\n' {
        i := SkipGapsFrom(raw, i);
        if |out| > 0 {
          out := out + "\n";
        }
        Regroup(before, if AtStart(before) then "" else "\n", Squeeze(true, raw[i..]));
      } else {
        assert s[1..] == raw[i + 1..];
        out := out + [raw[i]];
        Regroup(before, [raw[i]], Squeeze(false, s[1..]));
        i := i + 1;
      }
    }
    assert raw[i..] == "" && Squeeze(AtStart(out), "") == "" by {
      SqueezeNothing(AtStart(out));
    }
    assert out + "" == out;
    r := Trim(out);
  }

  lemma SqueezeNothing(start: bool)
    ensures Squeeze(start, "") == ""
  {
  }

  method SkipBlanksFrom(raw: string, from: nat) returns (i: nat)
    requires from < |raw|
    ensures from <= i <= |raw| && raw[i..] == SkipBlanks(raw[from..])
  {
    i := from;
    while i < |raw| && (raw[i] == ' ' || raw[i] == '\t')
      invariant from <= i <= |raw|
      invariant SkipBlanks(raw[i..]) == SkipBlanks(raw[from..])
    {
      assert raw[i..][1..] == raw[i + 1..];
      i := i + 1;
    }
  }

  method SkipGapsFrom(raw: string, from: nat) returns (i: nat)
    requires from < |raw|
    ensures from <= i <= |raw| && raw[i..] == SkipGaps(raw[from..])
  {
    i := from;
    while i < |raw| && (raw[i] == '\n' || raw[i] == ' ' || raw[i] == '\t')
      invariant from <= i <= |raw|
      invariant SkipGaps(raw[i..]) == SkipGaps(raw[from..])
    {
      assert raw[i..][1..] == raw[i + 1..];
      i := i + 1;
    }
  }

  // ----- literals

  function EscapeChar(c: char): string {
    if c == '\\' then "\\\\" else if c == '"' then "\\\"" else if c == '\n' then "\\n" else [c]
  }

  function Escape(s: string): string {
    if s == "" then "" else EscapeChar(s[0]) + Escape(s[1..])
  }

  /** What an escape sequence of C++ stands for, of those the embedder uses. */
  function Meaning(c: char): Option<char> {
    if c == '\\' || c == '"' then Some(c) else if c == 'n' then Some('\n') else None
  }

  datatype Read = Bad | Read(text: string, rest: string)

  /** Reads the inside of a string literal: its text, and what follows the closing
      quote.  A line feed cannot stand in a literal. */
  function ReadLiteral(t: string): (r: Read)
    ensures r.Read? ==> |r.rest| < |t|
  {
    if t == "" || t[0] == '\n' then Bad
    else if t[0] == '"' then Read("", t[1..])
    else if t[0] != '\\' then Prepend(t[0], ReadLiteral(t[1..]))
    else if |t| < 2 || Meaning(t[1]).None? then Bad
    else Prepend(Meaning(t[1]).value, ReadLiteral(t[2..]))
  }

  function Prepend(c: char, r: Read): Read {
    match r
    case Bad => Bad
    case Read(text, rest) => Read([c] + text, rest)
  }

  lemma ReadChar(c: char, t: string)
    ensures ReadLiteral(EscapeChar(c) + t) == Prepend(c, ReadLiteral(t))
  {
    var e := EscapeChar(c);
    assert (e + t)[|e|..] == t;
    assert e[0] == (e + t)[0] && (|e| == 2 ==> e[1] == (e + t)[1]);
  }

  /** A literal reads back as the text it was made from, and ends at the quote the
      embedder closed it with. */
  lemma {:induction false} EscapeThenRead(s: string, rest: string)
    ensures ReadLiteral(Escape(s) + "\"" + rest) == Read(s, rest)
  {
    var q := "\"";
    assert (q + rest)[1..] == rest;
    if s == "" {
      assert Escape(s) + q + rest == q + rest;
    } else {
      hide ReadLiteral, EscapeChar;
      var e := Escape(s[1..]);
      EscapeThenRead(s[1..], rest);
      ReadChar(s[0], e + q + rest);
      Regroup(EscapeChar(s[0]), e, q);
      Regroup(EscapeChar(s[0]), e + q, rest);
      assert [s[0]] + s[1..] == s;
    }
  }

  /** The first character of a literal that is not over, and what is left to read. */
  lemma FirstChar(t: string) returns (c: char, u: string)
    requires ReadLiteral(t).Read? && t[0] != '"'
    ensures t == EscapeChar(c) + u && ReadLiteral(t) == Prepend(c, ReadLiteral(u)) && |u| < |t|
  {
    if t[0] == '\\' {
      c, u := Meaning(t[1]).value, t[2..];
    } else {
      c, u := t[0], t[1..];
    }
  }

  /** And escaping is the only way to write a text with these escapes. */
  lemma {:induction false} ReadThenEscape(t: string)
    requires ReadLiteral(t).Read?
    ensures var r := ReadLiteral(t); t == Escape(r.text) + "\"" + r.rest
    decreases |t|
  {
    var r := ReadLiteral(t);
    var q := "\"";
    if t[0] == '"' {
      assert t == q + t[1..];
    } else {
      var c, u := FirstChar(t);
      hide ReadLiteral, EscapeChar;
      ReadThenEscape(u);
      var text, rest := ReadLiteral(u).text, ReadLiteral(u).rest;
      assert r.text[0] == c && r.text[1..] == text;
      Regroup(EscapeChar(c), Escape(text) + q, rest);
      Regroup(EscapeChar(c), Escape(text), q);
    }
  }

  method AppendEscaped(out: string, s: string) returns (r: string)
    ensures r == out + Escape(s)
  {
    r := out;
    assert s[0..] == s;
    for i := 0 to |s|
      invariant r + Escape(s[i..]) == out + Escape(s)
    {
      ghost var before, rest := r, s[i..];
      assert rest[1..] == s[i + 1..];
      match s[i] {
        case '\\' => r := r + "\\\\";
        case '"' => r := r + "\\\"";
        case '\n' => r := r + "\\n";
        case _ => r := r + [s[i]];
      }
      assert r == before + EscapeChar(s[i]);
      Regroup(before, EscapeChar(s[i]), Escape(s[i + 1..]));
    }
    assert s[|s|..] == "" && r + "" == r;
  }

  // ----- statements

  function NormalizeAll(parts: seq<string>): seq<string> {
    if parts == [] then []
    else
      var stmt, rest := Normalize(parts[0]), NormalizeAll(parts[1..]);
      if stmt == "" then rest else [stmt] + rest
  }

  /** The statements of an SQL file. */
  function Statements(sql: string): seq<string> {
    NormalizeAll(Split(Strip(sql), ';'))
  }

  /** A statement ends at a semicolon and the next begins behind it: parts that have
      none, joined by semicolons, are the statements, but for the blank ones. */
  lemma StatementsOfParts(parts: seq<string>)
    requires parts != [] && (forall i :: 0 <= i < |parts| ==> ';' !in parts[i]) && !HasDashes(Join(parts, ';'))
    ensures Statements(Join(parts, ';')) == NormalizeAll(parts)
  {
    hide HasDashes, Join, NormalizeAll, Strip;
    StripFixed(Join(parts, ';'));
    SplitJoin(parts, ';');
  }

  const OPENING := "    \""
  const CLOSING := "\n};\n\n"
  const COMMA := ",\n"

  function Element(stmt: string): string {
    OPENING + Escape(stmt) + "\""
  }

  function Separated(first: bool, stmt: string): string {
    (if first then "" else COMMA) + Element(stmt)
  }

  /** The rest of an emitted list; `first` says that nothing was emitted yet. */
  function Emit(first: bool, stmts: seq<string>): string {
    if stmts == [] then CLOSING
    else Separated(first, stmts[0]) + Emit(false, stmts[1..])
  }

  /** What reading a braced list yields: its elements, and what follows the list. */
  datatype ListRead = NoList | Elements(stmts: seq<string>, rest: string)

  /** Reads the rest of a list in the layout it is emitted in. */
  function ReadList(first: bool, t: string): (r: ListRead)
    ensures r.Elements? ==> |r.rest| < |t|
    decreases |t|, 1
  {
    if CLOSING <= t then Elements([], t[|CLOSING|..])
    else if !first && !(COMMA <= t) then NoList
    else ReadElement(if first then t else t[|COMMA|..])
  }

  function ReadElement(t: string): (r: ListRead)
    ensures r.Elements? ==> |r.rest| < |t|
    decreases |t|, 0
  {
    if !(OPENING <= t) then NoList
    else
      match ReadLiteral(t[|OPENING|..])
      case Bad => NoList
      case Read(text, rest) => WithFirst(text, ReadList(false, rest))
  }

  function WithFirst(stmt: string, r: ListRead): ListRead {
    match r
    case NoList => NoList
    case Elements(stmts, rest) => Elements([stmt] + stmts, rest)
  }

  lemma ElementReads(stmt: string, t: string)
    ensures ReadElement(Element(stmt) + t) == WithFirst(stmt, ReadList(false, t))
  {
    hide ReadList;
    var u := Element(stmt) + t;
    EscapeThenRead(stmt, t);
    assert u[..|OPENING|] == OPENING;
    assert u[|OPENING|..] == Escape(stmt) + "\"" + t;
  }

  lemma FirstReads(stmt: string, t: string)
    ensures ReadList(true, Element(stmt) + t) == ReadElement(Element(stmt) + t)
  {
    hide ReadElement;
    assert (Element(stmt) + t)[0] == ' ';
  }

  lemma NextReads(u: string)
    ensures ReadList(false, COMMA + u) == ReadElement(u)
  {
    hide ReadElement;
    assert (COMMA + u)[0] == ',' && (COMMA + u)[|COMMA|..] == u;
  }

  lemma NothingReads(first: bool, tail: string)
    ensures ReadList(first, Emit(first, []) + tail) == Elements([], tail)
  {
    hide ReadElement;
    assert (CLOSING + tail)[|CLOSING|..] == tail;
  }

  /** An emitted list reads back as the statements it was emitted for, and ends
      where it was closed. */
  lemma {:induction false} EmitThenRead(first: bool, stmts: seq<string>, tail: string)
    ensures ReadList(first, Emit(first, stmts) + tail) == Elements(stmts, tail)
  {
    hide Element, ReadElement, ReadList;
    if stmts == [] {
      NothingReads(first, tail);
    } else {
      var t, e := Emit(false, stmts[1..]) + tail, Element(stmts[0]);
      EmitThenRead(false, stmts[1..], tail);
      ElementReads(stmts[0], t);
      FirstReads(stmts[0], t);
      NextReads(e + t);
      Regroup(COMMA, e, t);
      Regroup(Separated(first, stmts[0]), Emit(false, stmts[1..]), tail);
      assert "" + e + t == e + t;
      assert [stmts[0]] + stmts[1..] == stmts;
    }
  }

  // What the statements are like.

  lemma {:induction false} PiecesWithout(s: string, at: char)
    ensures forall i :: 0 <= i < |Split(s, at)| ==> at !in Split(s, at)[i]
  {
    if s != "" {
      PiecesWithout(s[1..], at);
    }
  }

  lemma {:induction false} PieceNoDashes(s: string, at: char)
    requires !HasDashes(s)
    ensures forall i :: 0 <= i < |Split(s, at)| ==> !HasDashes(Split(s, at)[i])
    ensures Split(s, at)[0] <= s
  {
    var pieces := Split(s, at);
    if s != "" {
      HasDashesStep(s);
      PieceNoDashes(s[1..], at);
      var rest := Split(s[1..], at);
      if s[0] != at {
        assert pieces[0][1..] == rest[0];
        HasDashesStep(pieces[0]);
        assert forall i :: 0 < i < |pieces| ==> pieces[i] == rest[i];
      } else {
        assert forall i :: 0 < i < |pieces| ==> pieces[i] == rest[i - 1];
      }
    }
  }

  lemma {:induction false} SkipNoDashes(s: string)
    requires !HasDashes(s)
    ensures !HasDashes(SkipBlanks(s)) && !HasDashes(SkipGaps(s))
  {
    if s != "" {
      HasDashesStep(s);
      SkipNoDashes(s[1..]);
    }
  }

  lemma {:induction false} SqueezeNoDashes(start: bool, s: string)
    requires !HasDashes(s)
    ensures !HasDashes(Squeeze(start, s))
    ensures var r := Squeeze(start, s); r != "" && r[0] == '-' ==> start || s[0] == '-'
    decreases |s|
  {
    if s != "" {
      HasDashesStep(s);
      SkipNoDashes(s[1..]);
      var rest := if Blank(s[0]) then SkipBlanks(s[1..]) else if s[0] == '\n' then SkipGaps(s[1..]) else s[1..];
      var line := if Blank(s[0]) then start else s[0] == '\n';
      SqueezeNoDashes(line, rest);
      var r := Squeeze(start, s);
      if r != Squeeze(line, rest) {
        assert r[1..] == Squeeze(line, rest);
        HasDashesStep(r);
      }
    }
  }

  lemma PrefixDashes(r: string, s: string)
    requires r <= s && HasDashes(r)
    ensures HasDashes(s)
  {
    var k :| 0 <= k < |r| && Dashes(r[k..]);
    assert Dashes(s[k..]);
  }

  lemma {:induction false} TrimNoDashes(s: string)
    requires !HasDashes(s)
    ensures !HasDashes(TrimLeft(s)) && !HasDashes(TrimRight(s))
  {
    if HasDashes(TrimRight(s)) {
      PrefixDashes(TrimRight(s), s);
    }
    if s != "" {
      HasDashesStep(s);
      TrimNoDashes(s[1..]);
    }
  }

  lemma {:induction false} KeptIn(drop: set<char>, s: string, c: char)
    requires c !in drop
    ensures c in s <==> c in Keep(drop, s)
  {
    if s != "" {
      KeptIn(drop, s[1..], c);
      assert [s[0]] + s[1..] == s;
    }
  }

  lemma NormalizedPiece(s: string)
    requires !HasDashes(s) && ';' !in s
    ensures !HasDashes(Normalize(s)) && ';' !in Normalize(s) && Normal(Normalize(s))
  {
    SqueezeNoDashes(true, s);
    TrimNoDashes(Squeeze(true, s));
    TrimNoDashes(TrimLeft(Squeeze(true, s)));
    NormalizeKeeps(WHITES, s);
    KeptIn(WHITES, s, ';');
    KeptIn(WHITES, Normalize(s), ';');
    NormalizeNormal(s);
  }

  ghost predicate Clean(stmt: string) {
    stmt != "" && Normal(stmt) && ';' !in stmt && !HasDashes(stmt)
  }

  lemma {:induction false} NormalizeAllClean(parts: seq<string>)
    requires forall i :: 0 <= i < |parts| ==> !HasDashes(parts[i]) && ';' !in parts[i]
    ensures forall i :: 0 <= i < |NormalizeAll(parts)| ==> Clean(NormalizeAll(parts)[i])
  {
    hide Clean, Normalize, HasDashes;
    if parts != [] {
      NormalizedPiece(parts[0]);
      NormalizeAllClean(parts[1..]);
      var stmt, rest := Normalize(parts[0]), NormalizeAll(parts[1..]);
      if stmt != "" {
        NonEmptyIsClean(stmt);
      }
      assert forall i :: 0 <= i < |rest| ==> Clean(rest[i]);
    }
  }

  lemma NonEmptyIsClean(stmt: string)
    requires stmt != "" && !HasDashes(stmt) && ';' !in stmt && Normal(stmt)
    ensures Clean(stmt)
  {
  }

  function Concat(parts: seq<string>): string {
    if parts == [] then "" else parts[0] + Concat(parts[1..])
  }

  lemma {:induction false} SplitKeeps(drop: set<char>, s: string, at: char)
    requires at in drop
    ensures Keep(drop, Concat(Split(s, at))) == Keep(drop, s)
  {
    if s != "" {
      SplitKeeps(drop, s[1..], at);
      var rest := Split(s[1..], at);
      if s[0] == at {
        assert Concat([""] + rest) == Concat(rest);
      } else {
        var x := [s[0]] + rest[0];
        assert Concat([x] + rest[1..]) == [s[0]] + Concat(rest);
        KeepConcat(drop, [s[0]], Concat(rest));
        assert ([s[0]] + Concat(rest))[1..] == Concat(rest);
      }
    }
  }

  lemma {:induction false} NormalizeAllKeeps(drop: set<char>, parts: seq<string>)
    requires WHITES <= drop
    ensures Keep(drop, Concat(NormalizeAll(parts))) == Keep(drop, Concat(parts))
  {
    hide Keep, Normalize;
    if parts != [] {
      var stmt, rest := Normalize(parts[0]), NormalizeAll(parts[1..]);
      NormalizeAllKeeps(drop, parts[1..]);
      NormalizeKeeps(drop, parts[0]);
      KeepConcat(drop, parts[0], Concat(parts[1..]));
      KeepConcat(drop, stmt, Concat(rest));
      assert Concat(NormalizeAll(parts)) == stmt + Concat(rest);
    }
  }

  /** The embedded statements are each one statement: normalized, not empty, free
      of comments and of semicolons.  Together they hold every character of the
      file outside its comments, but for whitespace and semicolons, in order. */
  lemma StatementsAreTheCode(sql: string)
    ensures forall i :: 0 <= i < |Statements(sql)| ==> Clean(Statements(sql)[i])
    ensures var drop := WHITES + {';'}; Keep(drop, Concat(Statements(sql))) == Keep(drop, Strip(sql))
  {
    NoDashesLeft(sql);
    PieceNoDashes(Strip(sql), ';');
    PiecesWithout(Strip(sql), ';');
    NormalizeAllClean(Split(Strip(sql), ';'));
    NormalizeAllKeeps(WHITES + {';'}, Split(Strip(sql), ';'));
    SplitKeeps(WHITES + {';'}, Strip(sql), ';');
  }

  lemma EmitOne(first: bool, stmt: string, rest: seq<string>)
    ensures Emit(first, [stmt] + rest) == Separated(first, stmt) + Emit(false, rest)
  {
    assert ([stmt] + rest)[1..] == rest;
  }

  /** One element, or what an element leaves to emit when its piece is empty. */
  lemma EmitStep(first: bool, parts: seq<string>, i: nat)
    requires i < |parts|
    ensures var stmt, rest := Normalize(parts[i]), NormalizeAll(parts[i + 1..]);
            Emit(first, NormalizeAll(parts[i..])) ==
            if stmt == "" then Emit(first, rest) else Separated(first, stmt) + Emit(false, rest)
  {
    var stmt, rest := Normalize(parts[i]), NormalizeAll(parts[i + 1..]);
    assert parts[i..][1..] == parts[i + 1..] && parts[i..][0] == parts[i];
    hide Normalize, Emit, Separated;
    if stmt != "" {
      assert NormalizeAll(parts[i..]) == [stmt] + rest;
      EmitOne(first, stmt, rest);
    }
  }

  method AppendElement(first: bool, out: string, stmt: string) returns (r: string)
    ensures r == out + Separated(first, stmt)
  {
    r := out;
    if !first {
      r := r + COMMA;
    }
    ghost var before := r;
    r := r + OPENING;
    r := AppendEscaped(r, stmt);
    r := r + "\"";
    assert r == before + Element(stmt);
    Regroup(out, if first then "" else COMMA, Element(stmt));
  }

  /** Appends the list of one file's statements. */
  method EmbedFile(out: string, raw: string) returns (text: string)
    ensures text == out + Emit(true, Statements(raw))
  {
    hide Strip, Normalize, Separated, Emit;
    var uncommented := StripComments(raw);
    var parts := Split(uncommented, ';');
    var first := true;
    text := out;
    assert parts[0..] == parts;
    for i := 0 to |parts|
      invariant text + Emit(first, NormalizeAll(parts[i..])) == out + Emit(true, NormalizeAll(parts))
    {
      EmitStep(first, parts, i);
      var stmt := NormalizeText(parts[i]);
      if stmt == "" {
        continue;
      }
      Regroup(text, Separated(first, stmt), Emit(false, NormalizeAll(parts[i + 1..])));
      text := AppendElement(first, text, stmt);
      first := false;
    }
    NothingLeft(first, parts);
    text := text + CLOSING;
  }

  lemma NothingLeft(first: bool, parts: seq<string>)
    ensures Emit(first, NormalizeAll(parts[|parts|..])) == CLOSING
  {
  }

  // ----- the header

  const PREAMBLE := "#pragma once\n// Auto-generated from sql/*.sql \U{2014} do not edit.\n// Regenerated at build time by tools/embed_sql.zig.\n\n#include <string>\n#include <vector>\n\nnamespace blobhttp {\nnamespace sql {\n\n"
  const TRAILER := "} // namespace sql\n} // namespace blobhttp\n"
  const DECLARATION := "inline const std::vector<std::string> "
  const BRACE := " = {\n"

  /** One input: the name its list gets, and its text. */
  datatype Input = Input(stem: string, raw: string)

  /** One list of the header. */
  datatype Constant = Constant(name: string, stmts: seq<string>)

  function ConstantsOf(inputs: seq<Input>): (r: seq<Constant>)
    ensures |r| == |inputs|
    ensures forall i :: 0 <= i < |r| ==> r[i] == Constant(inputs[i].stem, Statements(inputs[i].raw))
  {
    seq(|inputs|, i requires 0 <= i < |inputs| => Constant(inputs[i].stem, Statements(inputs[i].raw)))
  }

  function Declared(c: Constant): string {
    DECLARATION + c.name + BRACE + Emit(true, c.stmts)
  }

  /** The text of a declared list of two: their literals, indented, a comma between
      them. */
  lemma ListText(name: string, s: string, t: string)
    ensures Declared(Constant(name, [s, t])) ==
            "inline const std::vector<std::string> " + name + " = {\n" +
            ("    \"" + Escape(s) + "\"" + ",\n" + "    \"" + Escape(t) + "\"" + "\n};\n\n")
  {
    hide Escape;
    assert [s, t][1..] == [t] && [t][1..] == [];
    var first, second := Element(s), Element(t);
    assert Emit(false, [t]) == COMMA + second + CLOSING && Emit(true, [s, t]) == "" + first + (COMMA + second + CLOSING);
  }

  function EmitConstants(cs: seq<Constant>): string {
    if cs == [] then TRAILER else Declared(cs[0]) + EmitConstants(cs[1..])
  }

  function EmitHeader(cs: seq<Constant>): string {
    PREAMBLE + EmitConstants(cs)
  }

  /** Reads the constants of an emitted header. */
  function ReadConstants(t: string): Option<seq<Constant>>
    decreases |t|
  {
    if t == TRAILER then Some([])
    else if !(DECLARATION <= t) then None
    else
      var u := t[|DECLARATION|..];
      var n := FindFirstOf(u, {' '}, 0);
      if !(BRACE <= u[n..]) then None
      else
        match ReadList(true, u[n + |BRACE|..])
        case NoList => None
        case Elements(stmts, rest) =>
          match ReadConstants(rest)
          case None => None
          case Some(more) => Some([Constant(u[..n], stmts)] + more)
  }

  function ReadHeader(t: string): Option<seq<Constant>> {
    if PREAMBLE <= t then ReadConstants(t[|PREAMBLE|..]) else None
  }

  /** The name ends at the brace that follows it. */
  lemma NameEnds(name: string, t: string)
    requires ' ' !in name
    ensures FindFirstOf(name + BRACE + t, {' '}, 0) == |name|
  {
    hide FindFirstOf;
    var u := name + BRACE + t;
    assert forall k :: 0 <= k < |name| ==> u[k] == name[k];
    assert u[|name|] == ' ';
    FirstOfIs(u, {' '}, 0, |name|);
  }

  function WithConstant(c: Constant, r: Option<seq<Constant>>): Option<seq<Constant>> {
    if r.Some? then Some([c] + r.value) else None
  }

  /** What stands after the declaration: a name, and its list. */
  lemma NameReads(c: Constant, t: string)
    requires ' ' !in c.name
    ensures var u := c.name + BRACE + (Emit(true, c.stmts) + t);
            var n := FindFirstOf(u, {' '}, 0);
            && n == |c.name| && u[..n] == c.name && BRACE <= u[n..]
            && ReadList(true, u[n + |BRACE|..]) == Elements(c.stmts, t)
  {
    hide Emit, ReadList, FindFirstOf;
    var list := Emit(true, c.stmts) + t;
    var u := c.name + BRACE + list;
    NameEnds(c.name, list);
    EmitThenRead(true, c.stmts, t);
    assert u[|c.name|..] == BRACE + list;
    assert u[|c.name| + |BRACE|..] == list;
  }

  lemma Redeclared(c: Constant, t: string)
    ensures Declared(c) + t == DECLARATION + (c.name + BRACE + (Emit(true, c.stmts) + t))
  {
    hide Emit;
    var d, b, e := DECLARATION, BRACE, Emit(true, c.stmts);
    assert d + c.name + b + e + t == d + (c.name + b + (e + t));
  }

  lemma ConstantReads(c: Constant, t: string)
    requires ' ' !in c.name
    ensures ReadConstants(Declared(c) + t) == WithConstant(c, ReadConstants(t))
  {
    hide Emit, ReadList, FindFirstOf, Declared;
    var u := c.name + BRACE + (Emit(true, c.stmts) + t);
    NameReads(c, t);
    Redeclared(c, t);
    Unfolded(u);
  }

  /** Reading at a declaration. */
  lemma Unfolded(u: string)
    ensures ReadConstants(DECLARATION + u) ==
            var n := FindFirstOf(u, {' '}, 0);
            if !(BRACE <= u[n..]) then None
            else
              match ReadList(true, u[n + |BRACE|..])
              case NoList => None
              case Elements(stmts, rest) => WithConstant(Constant(u[..n], stmts), ReadConstants(rest))
  {
    hide ReadList, FindFirstOf;
    var t := DECLARATION + u;
    assert t[|DECLARATION|..] == u && t[0] == 'i';
  }

  /** A header reads back as its constants, names and statements, as long as no name
      has a space in it. */
  lemma {:induction false} ConstantsRead(cs: seq<Constant>)
    requires forall i :: 0 <= i < |cs| ==> ' ' !in cs[i].name
    ensures ReadConstants(EmitConstants(cs)) == Some(cs)
  {
    hide ReadConstants, Declared;
    if cs == [] {
      NoConstants();
    } else {
      ConstantsRead(cs[1..]);
      ConstantReads(cs[0], EmitConstants(cs[1..]));
      assert [cs[0]] + cs[1..] == cs;
    }
  }

  lemma NoConstants()
    ensures ReadConstants(TRAILER) == Some([])
  {
    hide ReadList, FindFirstOf;
  }

  lemma HeaderReads(cs: seq<Constant>)
    requires forall i :: 0 <= i < |cs| ==> ' ' !in cs[i].name
    ensures ReadHeader(EmitHeader(cs)) == Some(cs)
  {
    ConstantsRead(cs);
    hide ReadConstants, EmitConstants;
    var p, e := PREAMBLE, EmitConstants(cs);
    assert (p + e)[|p|..] == e;
  }

  /** The whole header.  Read back, it has one list for every input, in order, under
      the input's name, of the input's statements. */
  method EmbedAll(inputs: seq<Input>) returns (out: string)
    ensures out == EmitHeader(ConstantsOf(inputs))
    ensures (forall i :: 0 <= i < |inputs| ==> ' ' !in inputs[i].stem) ==> ReadHeader(out) == Some(ConstantsOf(inputs))
  {
    hide Emit, Statements, ReadHeader;
    var cs := ConstantsOf(inputs);
    out := PREAMBLE;
    assert cs[0..] == cs;
    for i := 0 to |inputs|
      invariant out + EmitConstants(cs[i..]) == EmitHeader(cs)
    {
      ghost var before := out;
      out := out + DECLARATION;
      out := out + inputs[i].stem;
      out := out + BRACE;
      out := EmbedFile(out, inputs[i].raw);
      assert cs[i..][1..] == cs[i + 1..] && cs[i..][0] == cs[i];
      Written(before, cs[i]);
      Regroup(before, Declared(cs[i]), EmitConstants(cs[i + 1..]));
    }
    assert cs[|inputs|..] == [];
    out := out + TRAILER;
    if forall i :: 0 <= i < |inputs| ==> ' ' !in inputs[i].stem {
      HeaderReads(cs);
    }
  }

  lemma Written(before: string, c: Constant)
    ensures before + DECLARATION + c.name + BRACE + Emit(true, c.stmts) == before + Declared(c)
  {
    hide Emit;
    var d, b, e := DECLARATION, BRACE, Emit(true, c.stmts);
    assert before + d + c.name + b + e == before + (d + c.name + b + e);
  }
}
