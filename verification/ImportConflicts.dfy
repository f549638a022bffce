/** Catalog-number clashes (resolveConflicts and uniqueCatalog of internal/portability/import.go). */
module ImportConflicts {
  import opened Options
  import opened Decimal
  import opened ArchiveFormat

  /** orig with the suffix " (import n)"; SuffixedReads takes it apart again. */
  function Suffixed(orig: string, n: nat): string {
    orig + " (import " + Itoa(n) + ")"
  }

  lemma SuffixedReads(orig: string, n: nat)
    ensures var s, head := Suffixed(orig, n), orig + " (import ";
            head <= s && s[|s| - 1] == ')' && s[|head|..|s| - 1] == Itoa(n)
  {
    assert Suffixed(orig, n)[|orig + " (import "|..|Suffixed(orig, n)| - 1] == Itoa(n);
  }

  lemma SuffixedInjective(orig: string, m: nat, n: nat)
    requires Suffixed(orig, m) == Suffixed(orig, n)
    ensures m == n
  {
    var head := orig + " (import ";
    assert |Itoa(m)| == |Itoa(n)|;
    assert Suffixed(orig, m)[|head|..|head| + |Itoa(m)|] == Itoa(m);
    assert Suffixed(orig, n)[|head|..|head| + |Itoa(n)|] == Itoa(n);
    ItoaInjective(m, n);
  }

  /** n is the least suffix, counting from 1, that is free. */
  ghost predicate LeastFree(orig: string, taken: set<string>, n: nat) {
    n >= 1 && Suffixed(orig, n) !in taken && forall m :: 1 <= m < n ==> Suffixed(orig, m) in taken
  }

  /** Stops at the least free suffix, within |taken| + 1 tries. */
  method UniqueCatalog(orig: string, taken: set<string>) returns (cand: string)
    ensures cand !in taken
    ensures exists n: nat :: LeastFree(orig, taken, n) && n <= |taken| + 1 && cand == Suffixed(orig, n)
  {
    ghost var tried: set<string> := {};
    var i := 1;
    while true
      invariant i >= 1 && tried <= taken && |tried| == i - 1
      invariant forall m :: 1 <= m < i ==> Suffixed(orig, m) in taken
      invariant forall s :: s in tried ==> exists m :: 1 <= m < i && s == Suffixed(orig, m)
      decreases |taken| - |tried|
    {
      Subset(tried, taken);
      cand := Suffixed(orig, i);
      if cand !in taken {
        assert LeastFree(orig, taken, i);
        return;
      }
      if cand in tried {
        var m :| 1 <= m < i && cand == Suffixed(orig, m);
        SuffixedInjective(orig, m, i);
      }
      tried := tried + {cand};
      Subset(tried, taken);
      i := i + 1;
    }
  }

  lemma Subset(a: set<string>, b: set<string>)
    requires a <= b
    ensures |a| <= |b|
  {
    assert b == a + (b - a);
  }

  // ------------------------------------------------------------ all specimens

  /** A catalog number that takes part in clash resolution. */
  predicate Counts(lib: Library, s: SpecimenRecord) {
    s.catalogNumber.Some? && !lib.blank(s.catalogNumber.value)
  }

  /** The numbers in use when specimen i is reached. */
  ghost function TakenBefore(lib: Library, existing: set<string>, ss: seq<SpecimenRecord>, out: seq<Option<string>>, i: nat): set<string>
    requires i <= |ss| && i <= |out|
  {
    if i == 0 then existing else
      TakenBefore(lib, existing, ss, out, i - 1)
      + if Counts(lib, ss[i - 1]) && out[i - 1].Some? then {out[i - 1].value} else {}
  }

  /** The number a specimen is imported under when these are in use. */
  ghost predicate Decides(lib: Library, s: SpecimenRecord, taken: set<string>, x: Option<string>) {
    if !Counts(lib, s) then x == s.catalogNumber
    else
      var orig := s.catalogNumber.value;
      if orig !in taken then x == Some(orig)
      else exists n: nat :: LeastFree(orig, taken, n) && n <= |taken| + 1 && x == Some(Suffixed(orig, n))
  }

  ghost predicate ResolvedAt(lib: Library, existing: set<string>, ss: seq<SpecimenRecord>, out: seq<Option<string>>, i: nat)
    requires i < |ss| && i < |out|
  {
    Decides(lib, ss[i], TakenBefore(lib, existing, ss, out, i), out[i])
  }

  datatype Conflict = Conflict(specimenId: string, orig: string, imported: string)

  /** One conflict for each specimen whose number changes, in order. */
  function ConflictsOf(ss: seq<SpecimenRecord>, out: seq<Option<string>>): seq<Conflict>
    requires |ss| == |out|
  {
    if ss == [] then [] else
      var n := |ss| - 1;
      ConflictsOf(ss[..n], out[..n])
      + if out[n] != ss[n].catalogNumber && out[n].Some? && ss[n].catalogNumber.Some?
        then [Conflict(ss[n].id, ss[n].catalogNumber.value, out[n].value)] else []
  }

  ghost predicate Resolution(lib: Library, existing: set<string>, ss: seq<SpecimenRecord>, out: seq<Option<string>>) {
    |out| == |ss| && forall i :: 0 <= i < |ss| ==> ResolvedAt(lib, existing, ss, out, i)
  }

  lemma {:induction false} TakenPrefix(lib: Library, existing: set<string>, ss: seq<SpecimenRecord>, out: seq<Option<string>>, more: seq<Option<string>>, i: nat)
    requires i <= |ss| && i <= |out|
    ensures TakenBefore(lib, existing, ss, out + more, i) == TakenBefore(lib, existing, ss, out, i)
    decreases i
  {
    if i > 0 { TakenPrefix(lib, existing, ss, out, more, i - 1); }
  }

  lemma ResolvedPrefix(lib: Library, existing: set<string>, ss: seq<SpecimenRecord>, out: seq<Option<string>>, more: seq<Option<string>>, i: nat)
    requires i < |ss| && i < |out|
    ensures ResolvedAt(lib, existing, ss, out + more, i) == ResolvedAt(lib, existing, ss, out, i)
  {
    TakenPrefix(lib, existing, ss, out, more, i);
  }

  lemma ConflictsNext(ss: seq<SpecimenRecord>, out: seq<Option<string>>, x: Option<string>)
    requires |out| < |ss|
    ensures var i := |out|;
            ConflictsOf(ss[..i + 1], out + [x]) == ConflictsOf(ss[..i], out)
            + if x != ss[i].catalogNumber && x.Some? && ss[i].catalogNumber.Some?
              then [Conflict(ss[i].id, ss[i].catalogNumber.value, x.value)] else []
  {
    var i := |out|;
    assert ss[..i + 1][..i] == ss[..i] && (out + [x])[..i] == out;
  }

  /** The numbers decided so far, in order. */
  ghost predicate ResolvedUpTo(lib: Library, existing: set<string>, ss: seq<SpecimenRecord>, out: seq<Option<string>>) {
    |out| <= |ss| && forall i :: 0 <= i < |out| ==> ResolvedAt(lib, existing, ss, out, i)
  }

  lemma ResolvedNext(lib: Library, existing: set<string>, ss: seq<SpecimenRecord>, out: seq<Option<string>>, x: Option<string>)
    requires ResolvedUpTo(lib, existing, ss, out) && |out| < |ss|
    requires Decides(lib, ss[|out|], TakenBefore(lib, existing, ss, out, |out|), x)
    ensures ResolvedUpTo(lib, existing, ss, out + [x])
  {
    var k, out' := |out|, out + [x];
    forall i | 0 <= i < |out'|
      ensures ResolvedAt(lib, existing, ss, out', i)
    {
      if i < k {
        ResolvedPrefix(lib, existing, ss, out, [x], i);
      } else {
        TakenPrefix(lib, existing, ss, out, [x], k);
      }
    }
  }

  lemma TakenNext(lib: Library, existing: set<string>, ss: seq<SpecimenRecord>, out: seq<Option<string>>, x: Option<string>)
    requires |out| < |ss|
    ensures TakenBefore(lib, existing, ss, out + [x], |out| + 1) ==
            TakenBefore(lib, existing, ss, out, |out|) + if Counts(lib, ss[|out|]) && x.Some? then {x.value} else {}
  {
    TakenPrefix(lib, existing, ss, out, [x], |out|);
  }

  /** resolvedCat holds each archive id's number; a repeated id keeps the last. */
  ghost predicate ById(ss: seq<SpecimenRecord>, out: seq<Option<string>>, resolvedCat: map<string, Option<string>>)
    requires |out| <= |ss|
  {
    forall i :: 0 <= i < |out| && (forall j :: i < j < |out| ==> ss[j].id != ss[i].id) ==>
      ss[i].id in resolvedCat && resolvedCat[ss[i].id] == out[i]
  }

  lemma ByIdNext(ss: seq<SpecimenRecord>, out: seq<Option<string>>, resolvedCat: map<string, Option<string>>, x: Option<string>)
    requires |out| < |ss| && ById(ss, out, resolvedCat)
    ensures ById(ss, out + [x], resolvedCat[ss[|out|].id := x])
  {}

  /** What one pass of the loop decides for a specimen. */
  method ResolveOne(lib: Library, s: SpecimenRecord, taken: set<string>)
    returns (x: Option<string>, taken': set<string>, conflict: Option<Conflict>)
    ensures DecidesAll(lib, s, taken, x, taken', conflict)
  {
    if s.catalogNumber == None || lib.blank(s.catalogNumber.value) {
      return s.catalogNumber, taken, None;
    }
    var orig := s.catalogNumber.value;
    if orig !in taken {
      return Some(orig), taken + {orig}, None;
    }
    var resolved := UniqueCatalog(orig, taken);
    return Some(resolved), taken + {resolved}, Some(Conflict(s.id, orig, resolved));
  }

  /** The loop's state after the first |out| specimens. */
  ghost predicate ResolvedSoFar(lib: Library, existing: set<string>, ss: seq<SpecimenRecord>, out: seq<Option<string>>,
                                taken: set<string>, resolvedCat: map<string, Option<string>>, conflicts: seq<Conflict>) {
    && ResolvedUpTo(lib, existing, ss, out)
    && taken == TakenBefore(lib, existing, ss, out, |out|)
    && conflicts == ConflictsOf(ss[..|out|], out)
    && ById(ss, out, resolvedCat)
  }

  /** One more specimen, with what ResolveOne decides for it. */
  lemma ResolveStep(lib: Library, existing: set<string>, ss: seq<SpecimenRecord>, out: seq<Option<string>>,
                    taken: set<string>, resolvedCat: map<string, Option<string>>, conflicts: seq<Conflict>,
                    x: Option<string>, taken': set<string>, conflict: Option<Conflict>)
    requires ResolvedSoFar(lib, existing, ss, out, taken, resolvedCat, conflicts) && |out| < |ss|
    requires DecidesAll(lib, ss[|out|], taken, x, taken', conflict)
    ensures ResolvedSoFar(lib, existing, ss, out + [x], taken', resolvedCat[ss[|out|].id := x],
                          if conflict.Some? then conflicts + [conflict.value] else conflicts)
  {
    ConflictsNext(ss, out, x);
    ResolvedNext(lib, existing, ss, out, x);
    TakenNext(lib, existing, ss, out, x);
    ByIdNext(ss, out, resolvedCat, x);
  }

  /** The number for one specimen, the numbers in use from then on, and the conflict to report. */
  ghost predicate DecidesAll(lib: Library, s: SpecimenRecord, taken: set<string>,
                             x: Option<string>, taken': set<string>, conflict: Option<Conflict>) {
    && Decides(lib, s, taken, x)
    && taken' == taken + (if Counts(lib, s) && x.Some? then {x.value} else {})
    && conflict == if x != s.catalogNumber && x.Some? && s.catalogNumber.Some?
                   then Some(Conflict(s.id, s.catalogNumber.value, x.value)) else None
  }

  /** resolvedCat by archive id, and the conflicts; `out` lists the numbers by specimen. */
  method ResolveConflicts(lib: Library, existing: set<string>, ss: seq<SpecimenRecord>)
    returns (resolvedCat: map<string, Option<string>>, conflicts: seq<Conflict>, ghost out: seq<Option<string>>)
    ensures Resolution(lib, existing, ss, out) && conflicts == ConflictsOf(ss, out) && ById(ss, out, resolvedCat)
  {
    var taken := existing;
    resolvedCat, conflicts, out := map[], [], [];
    for k := 0 to |ss|
      invariant |out| == k && ResolvedSoFar(lib, existing, ss, out, taken, resolvedCat, conflicts)
    {
      var x, taken', conflict := ResolveOne(lib, ss[k], taken);
      ResolveStep(lib, existing, ss, out, taken, resolvedCat, conflicts, x, taken', conflict);
      resolvedCat := resolvedCat[ss[k].id := x];
      if conflict.Some? {
        conflicts := conflicts + [conflict.value];
      }
      taken, out := taken', out + [x];
    }
    assert ss[..|ss|] == ss;
  }

  // ------------------------------------------------------- what it guarantees

  lemma ResolvedIsFree(lib: Library, existing: set<string>, ss: seq<SpecimenRecord>, out: seq<Option<string>>, i: nat)
    requires Resolution(lib, existing, ss, out) && i < |ss| && Counts(lib, ss[i])
    ensures out[i].Some? && out[i].value !in TakenBefore(lib, existing, ss, out, i)
  {
    assert ResolvedAt(lib, existing, ss, out, i);
  }

  lemma {:induction false} TakenGrows(lib: Library, existing: set<string>, ss: seq<SpecimenRecord>, out: seq<Option<string>>, i: nat, j: nat)
    requires i <= j <= |ss| && j <= |out|
    ensures existing <= TakenBefore(lib, existing, ss, out, i) <= TakenBefore(lib, existing, ss, out, j)
    decreases j
  {
    if i < j {
      TakenGrows(lib, existing, ss, out, i, j - 1);
    } else if j > 0 {
      TakenGrows(lib, existing, ss, out, j - 1, j - 1);
    }
  }

  /** Every non-blank number ends up clear of the importer's existing ones ... */
  lemma ClearOfExisting(lib: Library, existing: set<string>, ss: seq<SpecimenRecord>, out: seq<Option<string>>, i: nat)
    requires Resolution(lib, existing, ss, out) && i < |ss| && Counts(lib, ss[i])
    ensures out[i].Some? && out[i].value !in existing
  {
    ResolvedIsFree(lib, existing, ss, out, i);
    TakenGrows(lib, existing, ss, out, 0, i);
  }

  /** ... and different from every other specimen's. */
  lemma NumbersDistinct(lib: Library, existing: set<string>, ss: seq<SpecimenRecord>, out: seq<Option<string>>, i: nat, j: nat)
    requires Resolution(lib, existing, ss, out) && i < j < |ss| && Counts(lib, ss[i]) && Counts(lib, ss[j])
    ensures out[i].Some? && out[j].Some? && out[i] != out[j]
  {
    ResolvedIsFree(lib, existing, ss, out, i);
    ResolvedIsFree(lib, existing, ss, out, j);
    TakenGrows(lib, existing, ss, out, i + 1, j);
  }

  /** A number changes exactly when it was taken, and then only to a suffixed form of itself. */
  lemma ChangedIffTaken(lib: Library, existing: set<string>, ss: seq<SpecimenRecord>, out: seq<Option<string>>, i: nat)
    requires Resolution(lib, existing, ss, out) && i < |ss|
    ensures out[i] != ss[i].catalogNumber <==>
            Counts(lib, ss[i]) && ss[i].catalogNumber.value in TakenBefore(lib, existing, ss, out, i)
    ensures out[i] != ss[i].catalogNumber ==> out[i].Some? && ss[i].catalogNumber.Some?
  {
    assert ResolvedAt(lib, existing, ss, out, i);
    if Counts(lib, ss[i]) { ResolvedIsFree(lib, existing, ss, out, i); }
  }

  function CountFor(conflicts: seq<Conflict>, id: string): nat {
    if conflicts == [] then 0
    else (if conflicts[|conflicts| - 1].specimenId == id then 1 else 0) + CountFor(conflicts[..|conflicts| - 1], id)
  }

  lemma {:induction false} CountConflicts(ss: seq<SpecimenRecord>, out: seq<Option<string>>, i: nat)
    requires |ss| == |out| && i < |ss|
    requires forall j, k :: 0 <= j < k < |ss| ==> ss[j].id != ss[k].id
    requires forall j :: 0 <= j < |ss| && out[j] != ss[j].catalogNumber ==> out[j].Some? && ss[j].catalogNumber.Some?
    ensures CountFor(ConflictsOf(ss, out), ss[i].id) == if out[i] != ss[i].catalogNumber then 1 else 0
    decreases |ss|
  {
    var n := |ss| - 1;
    var before := ConflictsOf(ss[..n], out[..n]);
    if out[n] != ss[n].catalogNumber {
      assert ConflictsOf(ss, out)[..|before|] == before;
    } else {
      assert ConflictsOf(ss, out) == before;
    }
    if i < n {
      CountConflicts(ss[..n], out[..n], i);
    } else {
      NoConflictFor(ss[..n], out[..n], ss[n].id);
    }
  }

  lemma {:induction false} NoConflictFor(ss: seq<SpecimenRecord>, out: seq<Option<string>>, id: string)
    requires |ss| == |out| && forall j :: 0 <= j < |ss| ==> ss[j].id != id
    ensures CountFor(ConflictsOf(ss, out), id) == 0
    decreases |ss|
  {
    if ss != [] {
      var n := |ss| - 1;
      var before := ConflictsOf(ss[..n], out[..n]);
      NoConflictFor(ss[..n], out[..n], id);
      if |ConflictsOf(ss, out)| > |before| {
        assert ConflictsOf(ss, out)[..|before|] == before;
      } else {
        assert ConflictsOf(ss, out) == before;
      }
    }
  }

  /** One conflict is recorded for a specimen whose number changes, none for any other. */
  lemma OneConflictPerChange(lib: Library, existing: set<string>, ss: seq<SpecimenRecord>, out: seq<Option<string>>, i: nat)
    requires Resolution(lib, existing, ss, out) && i < |ss|
    requires forall j, k :: 0 <= j < k < |ss| ==> ss[j].id != ss[k].id
    ensures CountFor(ConflictsOf(ss, out), ss[i].id) == if out[i] != ss[i].catalogNumber then 1 else 0
  {
    forall j | 0 <= j < |ss| && out[j] != ss[j].catalogNumber
      ensures out[j].Some? && ss[j].catalogNumber.Some?
    {
      ChangedIffTaken(lib, existing, ss, out, j);
    }
    CountConflicts(ss, out, i);
  }

  /** Every reported conflict names a specimen, its archived number and the different one it was imported under ... */
  lemma {:induction false} ConflictIsChange(ss: seq<SpecimenRecord>, out: seq<Option<string>>, c: Conflict) returns (i: nat)
    requires |ss| == |out| && c in ConflictsOf(ss, out)
    ensures i < |ss| && c.specimenId == ss[i].id && ss[i].catalogNumber == Some(c.orig) && out[i] == Some(c.imported)
    ensures c.orig != c.imported
    decreases |ss|
  {
    var n := |ss| - 1;
    if c in ConflictsOf(ss[..n], out[..n]) {
      i := ConflictIsChange(ss[..n], out[..n], c);
    } else {
      i := n;
    }
  }

  /** ... and every change of a number is reported. */
  lemma {:induction false} ChangeIsConflict(ss: seq<SpecimenRecord>, out: seq<Option<string>>, i: nat)
    requires |ss| == |out| && i < |ss| && out[i] != ss[i].catalogNumber && out[i].Some? && ss[i].catalogNumber.Some?
    ensures Conflict(ss[i].id, ss[i].catalogNumber.value, out[i].value) in ConflictsOf(ss, out)
    decreases |ss|
  {
    if i < |ss| - 1 { ChangeIsConflict(ss[..|ss| - 1], out[..|ss| - 1], i); }
  }

  lemma DecidesOnce(lib: Library, s: SpecimenRecord, taken: set<string>, x: Option<string>, y: Option<string>)
    requires Decides(lib, s, taken, x) && Decides(lib, s, taken, y)
    ensures x == y
  {
    if Counts(lib, s) && s.catalogNumber.value in taken {
      var orig := s.catalogNumber.value;
      var m: nat :| LeastFree(orig, taken, m) && x == Some(Suffixed(orig, m));
      var n: nat :| LeastFree(orig, taken, n) && y == Some(Suffixed(orig, n));
      assert m == n;
    }
  }

  /** The outcome is determined: validating twice from the same state resolves alike. */
  lemma {:induction false} ResolutionUnique(lib: Library, existing: set<string>, ss: seq<SpecimenRecord>, out: seq<Option<string>>, out': seq<Option<string>>, i: nat)
    requires Resolution(lib, existing, ss, out) && Resolution(lib, existing, ss, out') && i <= |ss|
    ensures out[..i] == out'[..i]
    ensures TakenBefore(lib, existing, ss, out, i) == TakenBefore(lib, existing, ss, out', i)
    decreases i
  {
    if i > 0 {
      ResolutionUnique(lib, existing, ss, out, out', i - 1);
      assert ResolvedAt(lib, existing, ss, out, i - 1) && ResolvedAt(lib, existing, ss, out', i - 1);
      DecidesOnce(lib, ss[i - 1], TakenBefore(lib, existing, ss, out, i - 1), out[i - 1], out'[i - 1]);
      assert out[..i] == out[..i - 1] + [out[i - 1]] && out'[..i] == out'[..i - 1] + [out'[i - 1]];
    }
  }
}
