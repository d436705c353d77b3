/** The assembly resolver (Form1.cs, `GetPartPathsFromAssembly`): keeps the
    component occurrences that reference an existing part file, lists each such
    path once in first-seen order, and counts how often each is used. */
module Resolver {
  import opened Wrappers
  import opened Sequences
  import Text
  import Host

  const PartExtension := ".SLDPRT"

  /** What iterating over a null component array throws. */
  const NullComponentsMessage := "Object reference not set to an instance of an object."

  /** One entry of the array the host returns for `GetComponents(false)`. */
  datatype Occurrence =
    | NotAComponent                           // an entry that is not a component object
    | Component(suppressed: bool, path: string) // `IsSuppressed()` and `GetPathName()`; null paths read as ""

  /** An opened assembly; `None` is a null component array. */
  datatype AssemblyDocument = AssemblyDocument(components: Option<seq<Occurrence>>)

  /** An occurrence is counted when it is an unsuppressed component whose path is
      non-empty, names an existing file and ends in `.SLDPRT` in any letter case. */
  predicate Qualifies(o: Occurrence, fileExists: string -> bool) {
    && o.Component?
    && !o.suppressed
    && o.path != ""
    && fileExists(o.path)
    && Text.EndsWithIgnoreCase(o.path, PartExtension)
  }

  /** The empty-path test adds nothing to the suffix test, and the suffix test compares
      the upper-cased path with `.SLDPRT`: an occurrence qualifies exactly when it is an
      unsuppressed component naming an existing file whose upper-cased path ends in `.SLDPRT`. */
  lemma QualifiesIffPartFile(o: Occurrence, fileExists: string -> bool)
    ensures Qualifies(o, fileExists) <==>
              o.Component? && !o.suppressed && fileExists(o.path) && Text.EndsWith(Text.UpperAll(o.path), PartExtension)
  {
    if o.Component? {
      Text.EndsWithIgnoreCaseIffUpper(o.path, PartExtension);
      assert Text.UpperAll(PartExtension) == PartExtension;
    }
  }

  /** The paths of the qualifying occurrences, in component order, repeats included. */
  function QualifyingPaths(components: seq<Occurrence>, fileExists: string -> bool): (paths: seq<string>)
    ensures |paths| <= |components|
  {
    if components == [] then []
    else
      var last := components[|components| - 1];
      QualifyingPaths(components[..|components| - 1], fileExists) + (if Qualifies(last, fileExists) then [last.path] else [])
  }

  /** A path is among the qualifying paths exactly when some qualifying occurrence references it. */
  lemma {:induction false} QualifyingPathsMembers(components: seq<Occurrence>, fileExists: string -> bool, p: string)
    ensures p in QualifyingPaths(components, fileExists) <==>
              exists k :: 0 <= k < |components| && Qualifies(components[k], fileExists) && components[k].path == p
  {
    if components != [] {
      var init := components[..|components| - 1];
      QualifyingPathsMembers(init, fileExists, p);
      assert forall k :: 0 <= k < |init| ==> components[k] == init[k];
    }
  }

  /** The unique part list (in first-seen order), the per-path usage counts and their total. */
  datatype Resolution = Resolution(uniqueParts: seq<string>, counts: map<string, int>, totalCount: int)

  /** `counts` maps exactly the values of `s` to how often each occurs in it. */
  ghost predicate IsCountOf(counts: map<string, int>, s: seq<string>) {
    && (forall p :: p in counts <==> p in s)
    && (forall p :: p in counts ==> counts[p] == multiset(s)[p])
  }

  /** `r` is what resolving `components` must produce: every qualifying path listed once,
      in first-seen order; the count map keyed by exactly those paths, each counting the
      qualifying occurrences of its path; and the total equal to their number. */
  ghost predicate IsResolutionOf(r: Resolution, components: seq<Occurrence>, fileExists: string -> bool) {
    var paths := QualifyingPaths(components, fileExists);
    && r.uniqueParts == Dedup(paths)
    && IsCountOf(r.counts, paths)
    && r.totalCount == |paths|
  }

  /** The component loop of the resolver, then the sum of the count map's values. */
  method CollectParts(components: seq<Occurrence>, fileExists: string -> bool) returns (r: Resolution)
    ensures IsResolutionOf(r, components, fileExists)
    ensures NoDuplicates(r.uniqueParts)
    ensures r.counts.Keys == set p | p in r.uniqueParts
  {
    var uniqueParts: seq<string> := [];
    var counts: map<string, int> := map[];
    ghost var seen: seq<string> := [];
    var i := 0;
    while i < |components|
      invariant 0 <= i <= |components|
      invariant seen == QualifyingPaths(components[..i], fileExists)
      invariant uniqueParts == Dedup(seen)
      invariant IsCountOf(counts, seen)
    {
      QualifyingPathsStep(components, i, fileExists);
      uniqueParts, counts := RecordOccurrence(uniqueParts, counts, seen, components[i], fileExists);
      seen := seen + (if Qualifies(components[i], fileExists) then [components[i].path] else []);
      i := i + 1;
    }
    assert components[..i] == components;
    var total := SumCounts(counts, seen);
    r := Resolution(uniqueParts, counts, total);
  }

  /** One pass of the component loop: a qualifying occurrence appends its path to the
      unique list when new, and adds one to its count (starting at 1). */
  method RecordOccurrence(uniqueParts: seq<string>, counts: map<string, int>, ghost seen: seq<string>,
                          o: Occurrence, fileExists: string -> bool)
    returns (uniqueParts': seq<string>, counts': map<string, int>)
    requires uniqueParts == Dedup(seen) && IsCountOf(counts, seen)
    ensures var seen' := seen + (if Qualifies(o, fileExists) then [o.path] else []);
            uniqueParts' == Dedup(seen') && IsCountOf(counts', seen')
  {
    uniqueParts', counts' := uniqueParts, counts;
    assert seen + [] == seen;
    if o.Component? && !o.suppressed {
      var path := o.path;
      if path != "" && fileExists(path) && Text.EndsWithIgnoreCase(path, PartExtension) {
        DedupStep(seen, path);
        CountStep(counts, seen, path);
        if path !in uniqueParts {
          uniqueParts' := uniqueParts + [path];
        }
        if path in counts {
          counts' := counts[path := counts[path] + 1];
        } else {
          counts' := counts[path := 1];
        }
      }
    }
  }

  /** Incrementing the count of `x`, or adding it with count 1, keeps the map the count
      of the extended sequence. */
  lemma CountStep(counts: map<string, int>, s: seq<string>, x: string)
    requires IsCountOf(counts, s)
    ensures IsCountOf(counts[x := if x in counts then counts[x] + 1 else 1], s + [x])
  {
    var c := counts[x := if x in counts then counts[x] + 1 else 1];
    assert multiset(s + [x]) == multiset(s) + multiset{x};
    forall p | p in c
      ensures c[p] == multiset(s + [x])[p]
    {
      if p == x && x !in counts {
        assert x !in multiset(s);
      }
    }
  }

  /** `partCounts.Values.Sum()`: adds up the count map's values, visiting its keys in
      whatever order the dictionary yields them. When the map counts `paths`, the sum is
      the number of entries of `paths`. */
  method SumCounts(counts: map<string, int>, ghost paths: seq<string>) returns (total: int)
    requires IsCountOf(counts, paths)
    ensures total == |paths|
  {
    total := 0;
    var remaining := counts.Keys;
    ghost var rest := multiset(paths);
    while remaining != {}
      invariant remaining <= counts.Keys
      invariant forall p :: p in rest <==> p in remaining
      invariant forall p :: p in remaining ==> counts[p] == rest[p]
      invariant total + |rest| == |paths|
      decreases remaining
    {
      var k :| k in remaining;
      total := total + counts[k];
      rest := rest[k := 0];
      remaining := remaining - {k};
    }
    assert rest == multiset{};
  }

  /** One more component extends the qualifying paths by its path exactly when it qualifies. */
  lemma QualifyingPathsStep(components: seq<Occurrence>, i: nat, fileExists: string -> bool)
    requires i < |components|
    ensures QualifyingPaths(components[..i + 1], fileExists)
         == QualifyingPaths(components[..i], fileExists)
            + (if Qualifies(components[i], fileExists) then [components[i].path] else [])
  {
    assert components[..i + 1][..i] == components[..i];
  }

  /** The message resolving an assembly fails with: the open check's message, or the
      null-components message for an opened assembly without a component array. */
  function ResolveFailure(session: Host.Session<AssemblyDocument>): (message: string)
    requires !(session.Opened? && session.doc.components.Some?)
    ensures !session.Opened? ==> Host.OpenDocument(session, Host.AssemblyKind) == Err(message)
    ensures session.Opened? ==> message == NullComponentsMessage
  {
    if session.Opened? then NullComponentsMessage else Host.OpenDocument(session, Host.AssemblyKind).message
  }

  /** Opens the assembly and collects its parts; any failure to open it, or a null
      component array, ends resolution with the message of the exception thrown. */
  method ResolveAssembly(session: Host.Session<AssemblyDocument>, fileExists: string -> bool) returns (r: Result<Resolution>)
    ensures r.Ok? <==> session.Opened? && session.doc.components.Some?
    ensures r.Ok? ==> IsResolutionOf(r.value, session.doc.components.value, fileExists)
    ensures r.Ok? ==> NoDuplicates(r.value.uniqueParts)
    ensures r.Err? ==> r.message == ResolveFailure(session)
  {
    var doc :- Host.OpenDocument(session, Host.AssemblyKind);
    if doc.components.None? {
      return Err(NullComponentsMessage);
    }
    var resolution := CollectParts(doc.components.value, fileExists);
    return Ok(resolution);
  }

  /** The unique list keeps first-seen order: of two listed parts, the earlier one was
      used by an earlier qualifying occurrence. */
  lemma UniquePartsInFirstSeenOrder(r: Resolution, components: seq<Occurrence>, fileExists: string -> bool, i: nat, j: nat)
    requires IsResolutionOf(r, components, fileExists)
    requires i < j < |r.uniqueParts|
    ensures var paths := QualifyingPaths(components, fileExists);
            FirstIndex(paths, r.uniqueParts[i]) < FirstIndex(paths, r.uniqueParts[j])
  {
    DedupFirstSeenOrder(QualifyingPaths(components, fileExists), i, j);
  }

  /** The total is the sum of the per-path counts, read along the unique list. */
  lemma TotalIsSumOfCounts(r: Resolution, components: seq<Occurrence>, fileExists: string -> bool)
    requires IsResolutionOf(r, components, fileExists)
    ensures r.totalCount == MultiplicitySum(r.uniqueParts, multiset(QualifyingPaths(components, fileExists)))
  {
    DedupMultiplicitySum(QualifyingPaths(components, fileExists));
  }
}
