/**
  The decision the search tool makes for each entry the directory walk visits:
  the cheap metadata guards first (type, then modification time after, then
  before, then size), then the name patterns, and only then, when content
  patterns were given, a scan of the file's lines.
*/
module Search {
  import opened Wrappers
  import opened Regex
  import opened Predicates

  /** What the walk reports about one filesystem entry; times and sizes are plain integers. */
  datatype Entry = Entry(pathname: string, isDir: bool, modTime: int, size: int)

  /**
    The metadata filters given on the command line: the type letters (`f`,
    `d`, both, or none for either) and the optional bounds; an absent bound
    is a flag that was not given.
  */
  datatype Filters = Filters(types: string, after: Option<int>, before: Option<int>, minSize: Option<int>)

  /** The metadata guards, named in the order they are checked. */
  datatype Guard = TypeGuard | AfterGuard | BeforeGuard | SizeGuard

  /** Which way the decision for an entry went. */
  datatype Verdict =
    | Rejected(guard: Guard)   // a metadata guard failed
    | NameMismatch             // no name pattern agreed with the pathname
    | PrintedPathname          // the pathname itself was printed
    | Scanned(matched: bool)   // the file was scanned; `matched` when some line was emitted

  const GuardOrder: seq<Guard> := [TypeGuard, AfterGuard, BeforeGuard, SizeGuard]

  /** A directory passes when `d` was asked for, anything else when `f` was; no letters at all lets everything through. */
  function MatchFileType(isDir: bool, types: string): (r: bool)
    ensures isDir ==> (r <==> 'd' in types || types == "")
    ensures !isDir ==> (r <==> 'f' in types || types == "")
  {
    if isDir && 'd' in types then true
    else if !isDir && 'f' in types then true
    else "" == types
  }

  /** Whether guard `g` lets entry `e` through; both time bounds and the size bound are inclusive. */
  predicate Holds(g: Guard, f: Filters, e: Entry)
  {
    match g
    case TypeGuard => MatchFileType(e.isDir, f.types)
    case AfterGuard => f.after.None? || e.modTime >= f.after.value
    case BeforeGuard => f.before.None? || e.modTime <= f.before.value
    case SizeGuard => f.minSize.None? || e.size >= f.minSize.value
  }

  /** The metadata filters are the conjunction of the guards. */
  predicate MetadataPasses(f: Filters, e: Entry)
  {
    forall g :: Holds(g, f, e)
  }

  /** The first guard of `gs`, in order, that rejects `e`. */
  function FirstFailingOf(gs: seq<Guard>, f: Filters, e: Entry): (r: Option<Guard>)
    ensures r.None? <==> forall i :: 0 <= i < |gs| ==> Holds(gs[i], f, e)
    ensures r.Some? ==> exists i :: 0 <= i < |gs| && gs[i] == r.value && !Holds(gs[i], f, e)
                          && forall j :: 0 <= j < i ==> Holds(gs[j], f, e)
  {
    if gs == [] then None
    else if !Holds(gs[0], f, e) then Some(gs[0])
    else
      var rest := FirstFailingOf(gs[1..], f, e);
      assert forall i :: 1 <= i < |gs| ==> gs[i] == gs[1..][i - 1];
      rest
  }

  /** The guard that stops entry `e`, if any. */
  function FirstFailure(f: Filters, e: Entry): Option<Guard>
  {
    FirstFailingOf(GuardOrder, f, e)
  }

  /** The guards are tried one after the other, in the order of `GuardOrder`. */
  lemma FirstFailureUnfolded(f: Filters, e: Entry)
    ensures FirstFailure(f, e) ==
      if !Holds(TypeGuard, f, e) then Some(TypeGuard)
      else if !Holds(AfterGuard, f, e) then Some(AfterGuard)
      else if !Holds(BeforeGuard, f, e) then Some(BeforeGuard)
      else if !Holds(SizeGuard, f, e) then Some(SizeGuard)
      else None
  {
    var g1 := [AfterGuard, BeforeGuard, SizeGuard];
    var g2 := [BeforeGuard, SizeGuard];
    var g3 := [SizeGuard];
    assert GuardOrder[1..] == g1 && g1[1..] == g2 && g2[1..] == g3 && g3[1..] == [];
    assert FirstFailingOf(g3, f, e) == if !Holds(SizeGuard, f, e) then Some(SizeGuard) else FirstFailingOf([], f, e);
    assert FirstFailingOf(g2, f, e) == if !Holds(BeforeGuard, f, e) then Some(BeforeGuard) else FirstFailingOf(g3, f, e);
    assert FirstFailingOf(g1, f, e) == if !Holds(AfterGuard, f, e) then Some(AfterGuard) else FirstFailingOf(g2, f, e);
  }

  /** No guard stops an entry exactly when the entry passes all of them. */
  lemma FirstFailureNone(f: Filters, e: Entry)
    ensures FirstFailure(f, e).None? <==> MetadataPasses(f, e)
  {
    if FirstFailure(f, e).None? {
      forall g ensures Holds(g, f, e) {
        assert g == GuardOrder[0] || g == GuardOrder[1] || g == GuardOrder[2] || g == GuardOrder[3];
      }
    }
  }

  /** An unset filter behaves as if its guard were not there at all. */
  lemma UnsetFiltersPass(f: Filters, e: Entry)
    ensures f.types == "" ==> Holds(TypeGuard, f, e)
    ensures f.after.None? ==> Holds(AfterGuard, f, e)
    ensures f.before.None? ==> Holds(BeforeGuard, f, e)
    ensures f.minSize.None? ==> Holds(SizeGuard, f, e)
    ensures f.types == "" && f.after.None? && f.before.None? && f.minSize.None? ==> MetadataPasses(f, e)
  {
    if f.types == "" && f.after.None? && f.before.None? && f.minSize.None? {
      forall g ensures Holds(g, f, e) {
      }
    }
  }

  /** What scanning a file yields: nothing when the file could not be opened. */
  function ScanOutput(eng: Engine, ps: seq<Pattern>, pathname: string, file: Option<seq<string>>): seq<string>
  {
    if file.None? then [] else Emission(eng, ps, pathname, file.value)
  }

  /**
    The per-entry decision of the directory walk. `file` is what opening the
    entry would yield; it is only consulted when content patterns are given
    and every earlier check passed. `out` is what is printed to standard
    output, line by line.
  */
  method Visit(eng: Engine, f: Filters, names: Patterns, contents: Patterns, e: Entry, file: Option<seq<string>>)
    returns (verdict: Verdict, out: seq<string>)
    ensures FirstFailure(f, e).Some? ==> verdict == Rejected(FirstFailure(f, e).value) && out == []
    ensures FirstFailure(f, e).None? && !NameMatches(eng, names.items, e.pathname) ==>
      verdict == NameMismatch && out == []
    ensures FirstFailure(f, e).None? && NameMatches(eng, names.items, e.pathname) && |contents.items| == 0 ==>
      verdict == PrintedPathname && out == [e.pathname]
    ensures FirstFailure(f, e).None? && NameMatches(eng, names.items, e.pathname) && |contents.items| > 0 ==>
      verdict.Scanned? && out == ScanOutput(eng, contents.items, e.pathname, file)
      && (verdict.matched <==> out != [])
    ensures out != [] ==> MetadataPasses(f, e) && NameMatches(eng, names.items, e.pathname)
  {
    FirstFailureNone(f, e);
    FirstFailureUnfolded(f, e);
    if !MatchFileType(e.isDir, f.types) {
      return Rejected(TypeGuard), [];
    }
    if f.after.Some? {
      if e.modTime < f.after.value {
        return Rejected(AfterGuard), [];
      }
    }
    if f.before.Some? {
      if e.modTime > f.before.value {
        return Rejected(BeforeGuard), [];
      }
    }
    if f.minSize.Some? {
      if e.size < f.minSize.value {
        return Rejected(SizeGuard), [];
      }
    }
    var named, _ := names.MatchPathname(eng, e.pathname);
    if named {
      if |contents.items| == 0 {
        verdict, out := PrintedPathname, [e.pathname];
      } else {
        var matched;
        matched, out := contents.MatchContents(eng, e.pathname, file);
        verdict := Scanned(matched);
      }
    } else {
      verdict, out := NameMismatch, [];
    }
  }

  /**
    A size bound of 1024, which is what `1Ki` reads as, keeps every file
    smaller than 1024 bytes out, before any pattern is looked at: some guard
    stops it, and it is the size guard unless an earlier guard already did.
  */
  lemma KibibyteFloor(f: Filters, e: Entry)
    requires f.minSize == Some(1024) && e.size < 1024
    ensures FirstFailure(f, e).Some? && !MetadataPasses(f, e)
    ensures Holds(TypeGuard, f, e) && Holds(AfterGuard, f, e) && Holds(BeforeGuard, f, e) ==>
      FirstFailure(f, e) == Some(SizeGuard)
  {
    FirstFailureUnfolded(f, e);
    assert !Holds(SizeGuard, f, e);
    FirstFailureNone(f, e);
  }
}
