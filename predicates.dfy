/**
  Patterns and the two ways the search tool combines them.

  A pattern is a polarity plus a compiled, case-insensitive regular
  expression. A list of name patterns accepts a pathname when SOME pattern
  agrees with it (OR); a list of content patterns accepts a line only when
  EVERY pattern agrees with it (AND). An empty list accepts everything.
*/
module Predicates {
  import opened Wrappers
  import opened Regex

  /** The prefix that makes every expression case-insensitive. */
  const CaseInsensitive: string := "(?i)"

  datatype Pattern = Pattern(affirmative: bool, regexp: Regexp)

  /** An affirmative pattern must match `subject`; a negative one must not. */
  predicate Agrees(eng: Engine, p: Pattern, subject: string)
  {
    p.affirmative == Match(eng, p.regexp, subject)
  }

  /** OR semantics over pathnames, with the empty list accepting every name. */
  predicate NameMatches(eng: Engine, ps: seq<Pattern>, pathname: string)
  {
    |ps| == 0 || exists i :: 0 <= i < |ps| && Agrees(eng, ps[i], pathname)
  }

  /** AND semantics over one line of a file. */
  predicate LineQualifies(eng: Engine, ps: seq<Pattern>, line: string)
  {
    forall i :: 0 <= i < |ps| ==> Agrees(eng, ps[i], line)
  }

  /** How one emitted line is written: the pathname, a colon, the line's text. */
  function Format(pathname: string, line: string): string
  {
    pathname + ":" + line
  }

  /** The output of scanning `lines`: every qualifying line, formatted, in file order. */
  function Emission(eng: Engine, ps: seq<Pattern>, pathname: string, lines: seq<string>): seq<string>
  {
    if lines == [] then []
    else
      var last := lines[|lines| - 1];
      Emission(eng, ps, pathname, lines[..|lines| - 1])
        + (if LineQualifies(eng, ps, last) then [Format(pathname, last)] else [])
  }

  /** The polarity and expression text that one flag value stands for. */
  datatype FlagText = FlagText(affirmative: bool, expr: string)

  /**
    Reading a flag value: only a `!` in the very first position makes the
    pattern negative and is dropped; the case-insensitive prefix goes in front
    of whatever remains.
  */
  function FromFlag(value: string): (f: FlagText)
    requires |value| > 0
    ensures f.affirmative <==> value[0] != '!'
    ensures |f.expr| >= |CaseInsensitive|
    ensures f.expr[..|CaseInsensitive|] == CaseInsensitive
    ensures f.expr[|CaseInsensitive|..] == if f.affirmative then value else value[1..]
  {
    if value[0] == '!' then FlagText(false, CaseInsensitive + value[1..])
    else FlagText(true, CaseInsensitive + value)
  }

  /** The pattern one flag value adds to its list when its expression compiles. */
  function PatternOf(value: string): Pattern
    requires |value| > 0
  {
    Pattern(FromFlag(value).affirmative, Regexp(FromFlag(value).expr))
  }

  /** The flag value a pattern's text was read from. */
  function ToFlag(f: FlagText): string
    requires |f.expr| >= |CaseInsensitive|
  {
    (if f.affirmative then "" else "!") + f.expr[|CaseInsensitive|..]
  }

  /** Reading a flag loses nothing: the value can be recovered from the pattern text. */
  lemma FlagRoundTrip(value: string)
    requires |value| > 0
    ensures ToFlag(FromFlag(value)) == value
  {
    if value[0] == '!' {
      assert value == "!" + value[1..];
    }
  }

  /** Hence two different flag values never yield the same pattern text. */
  lemma FromFlagInjective(v: string, w: string)
    requires |v| > 0 && |w| > 0
    requires FromFlag(v) == FromFlag(w)
    ensures v == w
  {
    FlagRoundTrip(v);
    FlagRoundTrip(w);
  }

  /** Exactly one leading `!` is consumed: `!!x` is the negative pattern for the expression `!x`. */
  lemma OnlyFirstBangStripped(rest: string)
    ensures FromFlag("!!" + rest) == FlagText(false, CaseInsensitive + "!" + rest)
  {
    assert ("!!" + rest)[0] == '!';
    assert ("!!" + rest)[1..] == "!" + rest;
  }

  /** The patterns built, in command-line order, from the occurrences of one pattern flag. */
  class Patterns {
    var items: seq<Pattern>

    /** Every pattern was compiled by `eng` from an expression with the case-insensitive prefix. */
    ghost predicate Valid(eng: Engine)
      reads this
    {
      forall i :: 0 <= i < |items| ==>
        |items[i].regexp.expr| >= |CaseInsensitive|
        && items[i].regexp.expr[..|CaseInsensitive|] == CaseInsensitive
        && eng.compiles(items[i].regexp.expr)
    }

    /** The list before any flag was read: Go's zero-valued slice. */
    constructor ()
      ensures items == []
      ensures forall eng: Engine :: Valid(eng)
    {
      items := [];
    }

    /**
      Adds the pattern for one occurrence of a pattern flag. A value whose
      expression does not compile is reported and leaves the list as it was.
    */
    method Set(eng: Engine, value: string) returns (err: Option<SyntaxError>)
      requires |value| > 0
      modifies this
      ensures err.Some? <==> !eng.compiles(FromFlag(value).expr)
      ensures err.Some? ==> err.value == SyntaxError(FromFlag(value).expr) && items == old(items)
      ensures err.None? ==> items == old(items) + [PatternOf(value)]
      ensures old(Valid(eng)) ==> Valid(eng)
    {
      var affirmative := true;
      var v := value;
      if value[0] == '!' {
        affirmative := false;
        v := value[1..];
      }
      match Compile(eng, CaseInsensitive + v)
      case Failure(e) =>
        err := Some(e);
      case Success(x) =>
        items := items + [Pattern(affirmative, x)];
        err := None;
    }

    /**
      Tries the name patterns in order and stops at the first one that agrees
      with `pathname`; `examined` counts the patterns tried.
    */
    method MatchPathname(eng: Engine, pathname: string) returns (r: bool, ghost examined: nat)
      ensures r <==> NameMatches(eng, items, pathname)
      ensures examined <= |items|
      ensures |items| > 0 && r ==>
        examined > 0 && Agrees(eng, items[examined - 1], pathname)
        && forall j :: 0 <= j < examined - 1 ==> !Agrees(eng, items[j], pathname)
      ensures !r ==> examined == |items|
    {
      examined := 0;
      if |items| == 0 {
        return true, 0;
      }
      var i := 0;
      while i < |items|
        invariant 0 <= i <= |items|
        invariant forall j :: 0 <= j < i ==> !Agrees(eng, items[j], pathname)
      {
        var p := items[i];
        if p.affirmative == Match(eng, p.regexp, pathname) {
          return true, i + 1;
        }
        i := i + 1;
      }
      return false, |items|;
    }

    /**
      Tries the content patterns in order against one line and stops at the
      first one that disagrees; `examined` counts the patterns tried.
    */
    method MatchLine(eng: Engine, line: string) returns (matched: bool, ghost examined: nat)
      ensures matched <==> LineQualifies(eng, items, line)
      ensures matched ==> examined == |items|
      ensures !matched ==>
        0 < examined <= |items| && !Agrees(eng, items[examined - 1], line)
        && forall j :: 0 <= j < examined - 1 ==> Agrees(eng, items[j], line)
    {
      matched := true;
      var i := 0;
      while i < |items|
        invariant 0 <= i <= |items|
        invariant forall j :: 0 <= j < i ==> Agrees(eng, items[j], line)
      {
        var p := items[i];
        if p.affirmative != Match(eng, p.regexp, line) {
          matched := false;
          break;
        }
        i := i + 1;
      }
      examined := if matched then |items| else i + 1;
    }

    /**
      Scans a whole file, emitting every line all content patterns agree with.
      `file` is what opening the file yields (`None` when it cannot be opened);
      with no content patterns the file is never looked at.
    */
    method MatchContents(eng: Engine, pathname: string, file: Option<seq<string>>)
      returns (r: bool, out: seq<string>)
      ensures |items| == 0 ==> r && out == []
      ensures |items| > 0 && file.None? ==> !r && out == []
      ensures |items| > 0 && file.Some? ==>
        out == Emission(eng, items, pathname, file.value)
        && (r <==> exists k :: 0 <= k < |file.value| && LineQualifies(eng, items, file.value[k]))
      ensures |items| > 0 ==> (r <==> out != [])
    {
      if |items| == 0 {
        return true, [];
      }
      if file.None? {
        return false, [];
      }
      var lines := file.value;
      r, out := false, [];
      var k := 0;
      while k < |lines|
        invariant 0 <= k <= |lines|
        invariant out == Emission(eng, items, pathname, lines[..k])
        invariant r <==> exists j :: 0 <= j < k && LineQualifies(eng, items, lines[j])
        invariant r <==> out != []
      {
        var line := lines[k];
        var matched, _ := MatchLine(eng, line);
        assert lines[..k + 1][..k] == lines[..k];
        if matched {
          out := out + [Format(pathname, line)];
          r := true;
        }
        k := k + 1;
      }
      assert lines[..k] == lines;
    }
  }

  /** Scanning the lines of a file in two parts emits the first part's lines, then the second's. */
  lemma {:induction false} EmissionAppend(eng: Engine, ps: seq<Pattern>, pathname: string, a: seq<string>, b: seq<string>)
    ensures Emission(eng, ps, pathname, a + b)
         == Emission(eng, ps, pathname, a) + Emission(eng, ps, pathname, b)
    decreases |b|
  {
    if b == [] {
      assert a + b == a;
    } else {
      var b' := b[..|b| - 1];
      assert (a + b)[..|a + b| - 1] == a + b';
      assert (a + b)[|a + b| - 1] == b[|b| - 1];
      EmissionAppend(eng, ps, pathname, a, b');
    }
  }

  /** What is emitted is exactly the formatted qualifying lines, and nothing else. */
  lemma {:induction false} EmissionMembers(eng: Engine, ps: seq<Pattern>, pathname: string, lines: seq<string>, x: string)
    ensures x in Emission(eng, ps, pathname, lines) <==>
      exists k :: 0 <= k < |lines| && LineQualifies(eng, ps, lines[k]) && x == Format(pathname, lines[k])
    decreases |lines|
  {
    if lines != [] {
      var init := lines[..|lines| - 1];
      EmissionMembers(eng, ps, pathname, init, x);
      assert forall k :: 0 <= k < |init| ==> init[k] == lines[k];
    }
  }

  /** The positions of the lines of a file that every pattern agrees with. */
  function QualifyingLines(eng: Engine, ps: seq<Pattern>, lines: seq<string>): set<int>
  {
    set k | 0 <= k < |lines| && LineQualifies(eng, ps, lines[k])
  }

  /** One line is emitted per qualifying line of the file. */
  lemma {:induction false} EmissionLength(eng: Engine, ps: seq<Pattern>, pathname: string, lines: seq<string>)
    ensures |Emission(eng, ps, pathname, lines)| == |QualifyingLines(eng, ps, lines)|
    decreases |lines|
  {
    if lines != [] {
      var n := |lines| - 1;
      EmissionLength(eng, ps, pathname, lines[..n]);
      QualifyingLinesStep(eng, ps, lines);
    }
  }

  lemma QualifyingLinesStep(eng: Engine, ps: seq<Pattern>, lines: seq<string>)
    requires lines != []
    ensures var n := |lines| - 1;
      QualifyingLines(eng, ps, lines)
      == QualifyingLines(eng, ps, lines[..n]) + (if LineQualifies(eng, ps, lines[n]) then {n} else {})
  {
    var n := |lines| - 1;
    assert forall k :: 0 <= k < n ==> lines[..n][k] == lines[k];
  }

  /** A name pattern list and its extension: for non-empty lists, OR distributes over concatenation. */
  lemma NameMatchesConcat(eng: Engine, ps: seq<Pattern>, qs: seq<Pattern>, pathname: string)
    requires |ps| > 0 && |qs| > 0
    ensures NameMatches(eng, ps + qs, pathname)
        <==> NameMatches(eng, ps, pathname) || NameMatches(eng, qs, pathname)
  {
    if NameMatches(eng, ps + qs, pathname) {
      var i :| 0 <= i < |ps + qs| && Agrees(eng, (ps + qs)[i], pathname);
      if i >= |ps| {
        assert qs[i - |ps|] == (ps + qs)[i];
      }
    }
    if NameMatches(eng, qs, pathname) {
      var i :| 0 <= i < |qs| && Agrees(eng, qs[i], pathname);
      assert (ps + qs)[|ps| + i] == qs[i];
    }
    if NameMatches(eng, ps, pathname) {
      var i :| 0 <= i < |ps| && Agrees(eng, ps[i], pathname);
      assert (ps + qs)[i] == ps[i];
    }
  }

  /** A line qualifies for a concatenated list exactly when it qualifies for both parts. */
  lemma LineQualifiesConcat(eng: Engine, ps: seq<Pattern>, qs: seq<Pattern>, line: string)
    ensures LineQualifies(eng, ps + qs, line)
        <==> LineQualifies(eng, ps, line) && LineQualifies(eng, qs, line)
  {
    if LineQualifies(eng, ps, line) && LineQualifies(eng, qs, line) {
      forall i | 0 <= i < |ps + qs| ensures Agrees(eng, (ps + qs)[i], line) {
        if i >= |ps| {
          assert (ps + qs)[i] == qs[i - |ps|];
        }
      }
    }
    if LineQualifies(eng, ps + qs, line) {
      forall i | 0 <= i < |qs| ensures Agrees(eng, qs[i], line) {
        assert (ps + qs)[|ps| + i] == qs[i];
      }
      forall i | 0 <= i < |ps| ensures Agrees(eng, ps[i], line) {
        assert (ps + qs)[i] == ps[i];
      }
    }
  }

  /** The order of the flags never changes whether a name or a line is accepted. */
  lemma OrderIrrelevant(eng: Engine, ps: seq<Pattern>, qs: seq<Pattern>, s: string)
    requires forall p :: p in ps <==> p in qs
    ensures NameMatches(eng, ps, s) == NameMatches(eng, qs, s)
    ensures LineQualifies(eng, ps, s) == LineQualifies(eng, qs, s)
  {
    if |ps| > 0 {
      assert ps[0] in qs;
    }
    if |qs| > 0 {
      assert qs[0] in ps;
    }
    if NameMatches(eng, ps, s) && |ps| > 0 {
      var i :| 0 <= i < |ps| && Agrees(eng, ps[i], s);
      assert ps[i] in qs;
    }
    if NameMatches(eng, qs, s) && |qs| > 0 {
      var i :| 0 <= i < |qs| && Agrees(eng, qs[i], s);
      assert qs[i] in ps;
    }
    if LineQualifies(eng, ps, s) {
      forall i | 0 <= i < |qs| ensures Agrees(eng, qs[i], s) {
        assert qs[i] in ps;
      }
    }
    if LineQualifies(eng, qs, s) {
      forall i | 0 <= i < |ps| ensures Agrees(eng, ps[i], s) {
        assert ps[i] in qs;
      }
    }
  }

  /** The same list with every polarity flipped. */
  function Negated(ps: seq<Pattern>): seq<Pattern>
  {
    seq(|ps|, i requires 0 <= i < |ps| => Pattern(!ps[i].affirmative, ps[i].regexp))
  }

  /**
    The two combination rules are duals: a non-empty name list accepts a
    pathname exactly when the same list with every polarity flipped, used as
    content patterns, rejects it as a line.
  */
  lemma NameIsDualOfLine(eng: Engine, ps: seq<Pattern>, s: string)
    requires |ps| > 0
    ensures NameMatches(eng, ps, s) <==> !LineQualifies(eng, Negated(ps), s)
  {
    var n := Negated(ps);
    if NameMatches(eng, ps, s) {
      var i :| 0 <= i < |ps| && Agrees(eng, ps[i], s);
      assert !Agrees(eng, n[i], s);
    }
    if !LineQualifies(eng, n, s) {
      var i :| 0 <= i < |n| && !Agrees(eng, n[i], s);
      assert Agrees(eng, ps[i], s);
    }
  }

  /**
    Content pattern `alpha` alone, on a file holding the lines `alpha` and
    `beta`: only the `alpha` line is emitted.
  */
  lemma OnlyAlphaLines(eng: Engine)
    requires eng.matches("(?i)alpha", "alpha") && !eng.matches("(?i)alpha", "beta")
    ensures Emission(eng, [PatternOf("alpha")], "./a.txt", ["alpha", "beta"]) == ["./a.txt:alpha"]
    ensures Emission(eng, [PatternOf("alpha")], "./b.log", ["alpha"]) == ["./b.log:alpha"]
  {
    var ps := [PatternOf("alpha")];
    assert CaseInsensitive + "alpha" == "(?i)alpha";
    assert ps[0] == Pattern(true, Regexp("(?i)alpha"));
    assert LineQualifies(eng, ps, "alpha");
    assert !Agrees(eng, ps[0], "beta");
    EmitsFirstLineOnly(eng, ps, "./a.txt", "alpha", "beta");
    EmitsSingleLine(eng, ps, "./b.log", "alpha");
    assert Format("./a.txt", "alpha") == "./a.txt:alpha";
    assert Format("./b.log", "alpha") == "./b.log:alpha";
  }

  /**
    Content patterns `alpha` and `!beta` on the same file: the line `alpha`
    satisfies both, the line `beta` fails the first, so only `alpha` is emitted.
  */
  lemma AlphaButNotBeta(eng: Engine)
    requires eng.matches("(?i)alpha", "alpha") && !eng.matches("(?i)alpha", "beta")
    requires !eng.matches("(?i)beta", "alpha")
    ensures Emission(eng, [PatternOf("alpha"), PatternOf("!beta")], "./a.txt", ["alpha", "beta"])
         == ["./a.txt:alpha"]
  {
    var ps := [PatternOf("alpha"), PatternOf("!beta")];
    assert CaseInsensitive + "alpha" == "(?i)alpha";
    assert "!beta"[0] == '!' && "!beta"[1..] == "beta";
    assert CaseInsensitive + "beta" == "(?i)beta";
    assert ps[0] == Pattern(true, Regexp("(?i)alpha"));
    assert ps[1] == Pattern(false, Regexp("(?i)beta"));
    assert Agrees(eng, ps[0], "alpha") && Agrees(eng, ps[1], "alpha");
    assert LineQualifies(eng, ps, "alpha");
    assert !Agrees(eng, ps[0], "beta");
    EmitsFirstLineOnly(eng, ps, "./a.txt", "alpha", "beta");
    assert Format("./a.txt", "alpha") == "./a.txt:alpha";
  }

  /** A one-line file whose line qualifies emits that line. */
  lemma EmitsSingleLine(eng: Engine, ps: seq<Pattern>, pathname: string, line: string)
    requires LineQualifies(eng, ps, line)
    ensures Emission(eng, ps, pathname, [line]) == [Format(pathname, line)]
  {
    assert [line][..0] == [];
  }

  /** A two-line file whose first line qualifies and whose second does not emits the first. */
  lemma EmitsFirstLineOnly(eng: Engine, ps: seq<Pattern>, pathname: string, first: string, second: string)
    requires LineQualifies(eng, ps, first) && !LineQualifies(eng, ps, second)
    ensures Emission(eng, ps, pathname, [first, second]) == [Format(pathname, first)]
  {
    assert [first, second][..1] == [first];
    EmitsSingleLine(eng, ps, pathname, first);
  }
}
