/** `repository_enhancer.py`: reads the list of Wolfi repositories, fetches
    each one's SBOM from GitHub's dependency graph, and tallies the package
    URLs (PURLs) it finds, the SBOMs with packages that have no external
    references, and how many such packages each ecosystem has. The lines of
    `repository_names.txt`, the HTTP exchange and the PURL library are given
    as inputs. */
module RepositoryEnhancer {
  import opened Outcomes
  import opened PyStrings
  import opened PyStringFacts
  import opened Ordering

  // ---------------------------------------------------------------------
  // load_wolfi_repositories
  // ---------------------------------------------------------------------

  const JenkinsPrefix: string := "jenkinsci"

  /** The repositories named by the file's lines: each line stripped, those
      starting with "jenkinsci" dropped, blank ones kept, in file order. */
  function Kept(lines: seq<string>): (r: seq<string>)
    ensures |r| <= |lines|
  {
    if lines == [] then []
    else
      var last := Strip(lines[|lines| - 1]);
      Kept(lines[..|lines| - 1]) + (if StartsWith(last, JenkinsPrefix) then [] else [last])
  }

  /** `load_wolfi_repositories()`. */
  method LoadWolfiRepositories(lines: seq<string>) returns (repos: seq<string>)
    ensures repos == Kept(lines)
  {
    repos := [];
    for i := 0 to |lines|
      invariant repos == Kept(lines[..i])
    {
      assert lines[..i + 1][..i] == lines[..i];
      var repository := Strip(lines[i]);
      if StartsWith(repository, JenkinsPrefix) {
        continue;
      }
      repos := repos + [repository];
    }
    assert lines[..|lines|] == lines;
  }

  // ---------------------------------------------------------------------
  // The SBOM and its request
  // ---------------------------------------------------------------------

  /** One entry of a package's `externalRefs`. */
  datatype ExternalRef = ExternalRef(referenceType: string, referenceLocator: string)

  /** An SPDX package: its name and, when the key is present, its
      `externalRefs`. */
  datatype Package = Package(name: string, externalRefs: Option<seq<ExternalRef>>)

  /** The `sbom` object of a response: its `documentNamespace` and packages. */
  datatype Sbom = Sbom(documentNamespace: string, packages: seq<Package>)

  /** A response to the SBOM request: its status and decoded body, none
      standing for a falsy body (`null` or an empty object). */
  datatype SbomResponse = SbomResponse(status: int, document: Option<Sbom>)

  function SbomUrl(fullName: string): string
  {
    "https://api.github.com/repos/" + fullName + "/dependency-graph/sbom"
  }

  /** `get_github_repo_sbom`: any `RequestException`, the one
      `raise_for_status` throws included, gives none. */
  function GetGithubRepoSbom(outcome: Call<SbomResponse>): Call<Option<Sbom>>
  {
    match outcome
    case Raised(e) => if IsRequestException(e) then Returned(None) else Raised(e)
    case Returned(response) =>
      if RaisesForStatus(response.status) then Returned(None) else Returned(response.document)
  }

  // ---------------------------------------------------------------------
  // Insertion-ordered dictionaries
  // ---------------------------------------------------------------------

  /** A Python `dict` keyed by strings, in insertion order. */
  type Dict<V> = seq<(string, V)>

  function Get<V>(d: Dict<V>, k: string): Option<V>
  {
    if d == [] then None else if d[0].0 == k then Some(d[0].1) else Get(d[1..], k)
  }

  /** `d[k] = v`: an existing key keeps its place, a new one goes last. */
  function Put<V>(d: Dict<V>, k: string, v: V): (r: Dict<V>)
    ensures |r| == |d| || |r| == |d| + 1
  {
    if d == [] then [(k, v)]
    else if d[0].0 == k then [(k, v)] + d[1..]
    else [d[0]] + Put(d[1..], k, v)
  }

  /** `d.get(k, 0)`. */
  function GetOrZero(d: Dict<int>, k: string): int
  {
    if Get(d, k).Some? then Get(d, k).value else 0
  }

  function Increment(d: Dict<int>, k: string): Dict<int>
  {
    Put(d, k, GetOrZero(d, k) + 1)
  }

  predicate KeysDistinct<V>(d: Dict<V>)
  {
    forall i, j :: 0 <= i < j < |d| ==> d[i].0 != d[j].0
  }

  function Keys<V>(d: Dict<V>): (r: seq<string>)
    ensures |r| == |d|
    ensures forall i :: 0 <= i < |d| ==> r[i] == d[i].0
  {
    if d == [] then [] else [d[0].0] + Keys(d[1..])
  }

  /** The sum of the counts. */
  function Total(d: Dict<int>): int
  {
    if d == [] then 0 else d[0].1 + Total(d[1..])
  }

  // ---------------------------------------------------------------------
  // The tally
  // ---------------------------------------------------------------------

  /** `PackageURL.from_string(s)._replace(version=None).to_string()`: a
      foreign library, given as a function that may raise. */
  type Normaliser = string -> Call<string>

  const PurlType: string := "purl"

  /** The index of the first external reference of type "purl". */
  function FirstPurl(refs: seq<ExternalRef>, k: nat): (r: Option<nat>)
    requires k <= |refs|
    ensures r.Some? ==> k <= r.value < |refs| && refs[r.value].referenceType == PurlType
    ensures r.Some? ==> forall q :: k <= q < r.value ==> refs[q].referenceType != PurlType
    ensures r.None? ==> forall q :: k <= q < |refs| ==> refs[q].referenceType != PurlType
    decreases |refs| - k
  {
    if k == |refs| then None
    else if refs[k].referenceType == PurlType then Some(k)
    else FirstPurl(refs, k + 1)
  }

  /** `name.split(':')[0]`. */
  function Ecosystem(name: string): string
  {
    Split(name, ":")[0]
  }

  function MissingPurlMessage(name: string, namespace: string): string
  {
    "`externalRefs` but missing PURL for " + name + " in " + namespace
  }

  /** The three module-level collections: `purls`, `missing_purl` and
      `missing_purl_by_ecosystem`. */
  datatype Tally = Tally(purls: set<string>, missing: Dict<Sbom>, byEcosystem: Dict<int>)

  const EmptyTally := Tally({}, [], [])

  /** One package of an SBOM. */
  function AfterPackage(t: Tally, sbom: Sbom, p: Package, normalise: Normaliser): Call<Tally>
  {
    match p.externalRefs
    case None =>
      Returned(Tally(t.purls, Put(t.missing, sbom.documentNamespace, sbom), Increment(t.byEcosystem, Ecosystem(p.name))))
    case Some(refs) =>
      match FirstPurl(refs, 0)
      case None => Raised(ValueError(MissingPurlMessage(p.name, sbom.documentNamespace)))
      case Some(i) =>
        match normalise(refs[i].referenceLocator)
        case Raised(e) => Raised(e)
        case Returned(purl) => Returned(t.(purls := t.purls + {purl}))
  }

  /** The packages from the first on, stopping at the first raise. */
  function AfterPackages(t: Tally, sbom: Sbom, packages: seq<Package>, normalise: Normaliser): Call<Tally>
    decreases |packages|
  {
    if packages == [] then Returned(t)
    else
      match AfterPackage(t, sbom, packages[0], normalise)
      case Raised(e) => Raised(e)
      case Returned(next) => AfterPackages(next, sbom, packages[1..], normalise)
  }

  /** The repositories from the first on: a repository without an SBOM is
      skipped, a raise stops everything. */
  function AfterRepositories(t: Tally, repos: seq<string>, fetch: string -> Call<SbomResponse>,
                             normalise: Normaliser): Call<Tally>
    decreases |repos|
  {
    if repos == [] then Returned(t)
    else
      match GetGithubRepoSbom(fetch(SbomUrl(repos[0])))
      case Raised(e) => Raised(e)
      case Returned(content) =>
        if content.None? then AfterRepositories(t, repos[1..], fetch, normalise)
        else
          match AfterPackages(t, content.value, content.value.packages, normalise)
          case Raised(e) => Raised(e)
          case Returned(next) => AfterRepositories(next, repos[1..], fetch, normalise)
  }

  class Tallies {
    var purls: set<string>
    var missingPurl: Dict<Sbom>
    var missingPurlByEcosystem: Dict<int>

    function State(): Tally
      reads this
    {
      Tally(purls, missingPurl, missingPurlByEcosystem)
    }

    constructor()
      ensures State() == EmptyTally
    {
      purls, missingPurl, missingPurlByEcosystem := {}, [], [];
    }

    /** The body of the loop over one SBOM's packages. */
    method RecordPackage(sbom: Sbom, package: Package, normalise: Normaliser) returns (raised: Option<Exception>)
      modifies this
      ensures raised.None? ==> AfterPackage(old(State()), sbom, package, normalise) == Returned(State())
      ensures raised.Some? ==> AfterPackage(old(State()), sbom, package, normalise) == Raised(raised.value)
    {
      var name := package.name;
      if package.externalRefs.None? {
        missingPurl := Put(missingPurl, sbom.documentNamespace, sbom);
        var ecosystem := Split(name, ":")[0];
        missingPurlByEcosystem := Put(missingPurlByEcosystem, ecosystem, GetOrZero(missingPurlByEcosystem, ecosystem) + 1);
        return None;
      }
      var refs := package.externalRefs.value;
      var purlFound := false;
      var i := 0;
      while i < |refs|
        invariant i <= |refs| && !purlFound
        invariant FirstPurl(refs, 0) == FirstPurl(refs, i)
        invariant State() == old(State())
        decreases |refs| - i
      {
        if refs[i].referenceType != PurlType {
          i := i + 1;
          continue;
        }
        purlFound := true;
        var purl := normalise(refs[i].referenceLocator);
        if purl.Raised? {
          return Some(purl.exc);
        }
        purls := purls + {purl.value};
        break;
      }
      if !purlFound {
        return Some(ValueError(MissingPurlMessage(package.name, sbom.documentNamespace)));
      }
      raised := None;
    }

    /** The loop over one SBOM's packages. */
    method RecordSbom(sbom: Sbom, normalise: Normaliser) returns (raised: Option<Exception>)
      modifies this
      ensures raised.None? ==> AfterPackages(old(State()), sbom, sbom.packages, normalise) == Returned(State())
      ensures raised.Some? ==> AfterPackages(old(State()), sbom, sbom.packages, normalise) == Raised(raised.value)
    {
      var packages := sbom.packages;
      assert packages[0..] == packages;
      for j := 0 to |packages|
        invariant AfterPackages(State(), sbom, packages[j..], normalise) == AfterPackages(old(State()), sbom, packages, normalise)
      {
        assert packages[j..][1..] == packages[j + 1..];
        raised := RecordPackage(sbom, packages[j], normalise);
        if raised.Some? {
          return;
        }
      }
      assert packages[|packages|..] == [];
      raised := None;
    }
  }

  /** What the script reports: the sorted PURLs, the dependency page of each
      SBOM with a package lacking references (in insertion order), and the
      per-ecosystem counts. */
  datatype Report = Report(purls: seq<string>, dependencyPages: seq<string>, byEcosystem: Dict<int>)

  /** `"/".join(url.split("/")[:-2]) + "/network/dependencies"`. */
  function DependencyUrl(namespace: string): string
  {
    var segments := Split(namespace, "/");
    Join(segments[..PyBound(-2, |segments|)], "/") + "/network/dependencies"
  }

  function DependencyPages(missing: Dict<Sbom>): (r: seq<string>)
    ensures |r| == |missing|
    ensures forall i :: 0 <= i < |missing| ==> r[i] == DependencyUrl(missing[i].0)
  {
    if missing == [] then [] else [DependencyUrl(missing[0].0)] + DependencyPages(missing[1..])
  }

  /** The `__main__` block: the repositories of `repository_names.txt`, each
      SBOM's packages tallied, then the report. A raise ends the script
      before anything is reported. */
  method Enhance(lines: seq<string>, fetch: string -> Call<SbomResponse>, normalise: Normaliser)
    returns (result: Call<Report>)
    ensures var run := AfterRepositories(EmptyTally, Kept(lines), fetch, normalise);
      && (run.Raised? ==> result == Raised(run.exc))
      && (run.Returned? ==>
            && result.Returned?
            && SortedListOf(result.value.purls, run.value.purls)
            && result.value.dependencyPages == DependencyPages(run.value.missing)
            && result.value.byEcosystem == run.value.byEcosystem)
  {
    var repositories := LoadWolfiRepositories(lines);
    var tallies := new Tallies();
    ghost var run := AfterRepositories(EmptyTally, repositories, fetch, normalise);
    assert repositories[0..] == repositories;
    for k := 0 to |repositories|
      invariant AfterRepositories(tallies.State(), repositories[k..], fetch, normalise) == run
    {
      var sbomContent := GetGithubRepoSbom(fetch(SbomUrl(repositories[k])));
      if sbomContent.Raised? {
        RepositoryRaises(tallies.State(), repositories, k, fetch, normalise);
        return Raised(sbomContent.exc);
      }
      if sbomContent.value.None? {
        RepositorySkipped(tallies.State(), repositories, k, fetch, normalise);
        continue;
      }
      ghost var before := tallies.State();
      var raised := tallies.RecordSbom(sbomContent.value.value, normalise);
      if raised.Some? {
        RepositoryRaises(before, repositories, k, fetch, normalise);
        return Raised(raised.value);
      }
      RepositoryTallied(before, repositories, k, fetch, normalise, tallies.State());
    }
    assert repositories[|repositories|..] == [];
    var sortedPurls := Sorted(tallies.purls);
    var pages := ListDependencyPages(tallies.missingPurl);
    return Returned(Report(sortedPurls, pages, tallies.missingPurlByEcosystem));
  }

  lemma {:induction false} RepositorySkipped(t: Tally, repos: seq<string>, k: nat, fetch: string -> Call<SbomResponse>, normalise: Normaliser)
    requires k < |repos| && GetGithubRepoSbom(fetch(SbomUrl(repos[k]))) == Returned(None)
    ensures AfterRepositories(t, repos[k..], fetch, normalise) == AfterRepositories(t, repos[k + 1..], fetch, normalise)
  {
    assert repos[k..][1..] == repos[k + 1..];
  }

  lemma {:induction false} RepositoryTallied(t: Tally, repos: seq<string>, k: nat, fetch: string -> Call<SbomResponse>, normalise: Normaliser,
                          next: Tally)
    requires k < |repos|
    requires var c := GetGithubRepoSbom(fetch(SbomUrl(repos[k])));
      c.Returned? && c.value.Some? && AfterPackages(t, c.value.value, c.value.value.packages, normalise) == Returned(next)
    ensures AfterRepositories(t, repos[k..], fetch, normalise) == AfterRepositories(next, repos[k + 1..], fetch, normalise)
  {
    assert repos[k..][1..] == repos[k + 1..];
  }

  /** A failed step of the repository loop is the outcome of the whole run. */
  lemma {:induction false} RepositoryRaises(t: Tally, repos: seq<string>, k: nat, fetch: string -> Call<SbomResponse>, normalise: Normaliser)
    requires k < |repos|
    ensures var c := GetGithubRepoSbom(fetch(SbomUrl(repos[k])));
      && (c.Raised? ==> AfterRepositories(t, repos[k..], fetch, normalise) == Raised(c.exc))
      && (c.Returned? && c.value.Some? && AfterPackages(t, c.value.value, c.value.value.packages, normalise).Raised? ==>
            AfterRepositories(t, repos[k..], fetch, normalise) == AfterPackages(t, c.value.value, c.value.value.packages, normalise))
  {
    assert repos[k..][0] == repos[k];
  }

  /** The loop that prints the dependency page of each SBOM in
      `missing_purl`, in insertion order. */
  method ListDependencyPages(missing: Dict<Sbom>) returns (pages: seq<string>)
    ensures pages == DependencyPages(missing)
  {
    pages := [];
    for i := 0 to |missing|
      invariant pages == DependencyPages(missing[..i])
    {
      assert missing[..i + 1] == missing[..i] + [missing[i]];
      DependencyPagesAppend(missing[..i], missing[i]);
      pages := pages + [DependencyUrl(missing[i].0)];
    }
    assert missing[..|missing|] == missing;
  }

  lemma {:induction false} DependencyPagesAppend(missing: Dict<Sbom>, entry: (string, Sbom))
    ensures DependencyPages(missing + [entry]) == DependencyPages(missing) + [DependencyUrl(entry.0)]
  {
  }

  // ---------------------------------------------------------------------
  // Properties
  // ---------------------------------------------------------------------

  /** A repository is kept exactly when some line strips to it and it does
      not start with "jenkinsci". */
  lemma {:induction false} KeptMembers(lines: seq<string>)
    ensures forall x :: x in Kept(lines) <==>
      (exists i :: 0 <= i < |lines| && Strip(lines[i]) == x) && !StartsWith(x, JenkinsPrefix)
  {
    if lines != [] {
      var init := lines[..|lines| - 1];
      KeptMembers(init);
      forall i | 0 <= i < |init| ensures init[i] == lines[i] {
      }
    }
  }

  /** The lines are filtered one by one, so the order of the file is kept. */
  lemma {:induction false} KeptAppend(a: seq<string>, b: seq<string>)
    ensures Kept(a + b) == Kept(a) + Kept(b)
    decreases |b|
  {
    if b == [] {
      assert a + b == a;
    } else {
      var init := b[..|b| - 1];
      assert (a + b)[..|a + b| - 1] == a + init;
      KeptAppend(a, init);
    }
  }

  /** Every kept name is already stripped, and a blank line gives an empty
      name that is kept. */
  lemma {:induction false} KeptAreStripped(lines: seq<string>)
    ensures forall x :: x in Kept(lines) ==> Strip(x) == x
    ensures forall i :: 0 <= i < |lines| && Strip(lines[i]) == [] ==> [] in Kept(lines)
  {
    KeptMembers(lines);
    forall x | x in Kept(lines) ensures Strip(x) == x {
      var i :| 0 <= i < |lines| && Strip(lines[i]) == x;
      StripIdempotent(lines[i]);
    }
  }

  /** The SBOM request never lets a `RequestException` through: it raises
      only what is not one, and gives an SBOM only for a successful status
      and a non-empty body. */
  lemma {:induction false} SbomRequestCases(outcome: Call<SbomResponse>)
    ensures GetGithubRepoSbom(outcome).Raised? <==> outcome.Raised? && !IsRequestException(outcome.exc)
    ensures GetGithubRepoSbom(outcome).Returned? && GetGithubRepoSbom(outcome).value.Some? <==>
      outcome.Returned? && !RaisesForStatus(outcome.value.status) && outcome.value.document.Some?
  {
  }

  /** A repository without an SBOM contributes nothing. */
  lemma {:induction false} SkippedRepositoryContributesNothing(t: Tally, repo: string, rest: seq<string>,
                                           fetch: string -> Call<SbomResponse>, normalise: Normaliser)
    requires GetGithubRepoSbom(fetch(SbomUrl(repo))) == Returned(None)
    ensures AfterRepositories(t, [repo] + rest, fetch, normalise) == AfterRepositories(t, rest, fetch, normalise)
  {
    assert ([repo] + rest)[1..] == rest;
  }

  lemma {:induction false} GetPut<V>(d: Dict<V>, k: string, v: V, other: string)
    ensures Get(Put(d, k, v), k) == Some(v)
    ensures other != k ==> Get(Put(d, k, v), other) == Get(d, other)
  {
    if d != [] && d[0].0 != k {
      GetPut(d[1..], k, v, other);
    }
  }

  /** Assignment keeps the insertion order: an existing key stays where it
      is, a new one is appended. */
  lemma {:induction false} PutKeepsOrder<V>(d: Dict<V>, k: string, v: V)
    ensures Get(d, k).Some? ==> Keys(Put(d, k, v)) == Keys(d)
    ensures Get(d, k).None? ==> Keys(Put(d, k, v)) == Keys(d) + [k]
  {
    if d != [] && d[0].0 != k {
      PutKeepsOrder(d[1..], k, v);
    }
  }

  lemma {:induction false} GetInKeys<V>(d: Dict<V>, k: string)
    ensures Get(d, k).Some? <==> k in Keys(d)
  {
    if d != [] {
      GetInKeys(d[1..], k);
      assert Keys(d) == [d[0].0] + Keys(d[1..]);
    }
  }

  /** No key is ever listed twice. */
  lemma {:induction false} PutKeepsKeysDistinct<V>(d: Dict<V>, k: string, v: V)
    requires KeysDistinct(d)
    ensures KeysDistinct(Put(d, k, v))
  {
    PutKeepsOrder(d, k, v);
    GetInKeys(d, k);
    var r := Put(d, k, v);
    forall i, j | 0 <= i < j < |r| ensures r[i].0 != r[j].0 {
      assert Keys(r)[i] == r[i].0 && Keys(r)[j] == r[j].0;
    }
  }

  /** The counts add up: an assignment changes the total by the change of
      that one count. */
  lemma {:induction false} TotalPut(d: Dict<int>, k: string, v: int)
    ensures Total(Put(d, k, v)) == Total(d) - GetOrZero(d, k) + v
  {
    if d != [] && d[0].0 != k {
      TotalPut(d[1..], k, v);
    }
  }

  /** A package without `externalRefs` records its SBOM under the document
      namespace and adds exactly one to its ecosystem's count; no PURL and no
      other count changes. */
  lemma {:induction false} PackageWithoutRefs(t: Tally, sbom: Sbom, p: Package, normalise: Normaliser, other: string)
    requires p.externalRefs.None?
    ensures AfterPackage(t, sbom, p, normalise).Returned?
    ensures var n := AfterPackage(t, sbom, p, normalise).value;
      && n.purls == t.purls
      && Get(n.missing, sbom.documentNamespace) == Some(sbom)
      && GetOrZero(n.byEcosystem, Ecosystem(p.name)) == GetOrZero(t.byEcosystem, Ecosystem(p.name)) + 1
      && (other != Ecosystem(p.name) ==> GetOrZero(n.byEcosystem, other) == GetOrZero(t.byEcosystem, other))
      && Total(n.byEcosystem) == Total(t.byEcosystem) + 1
  {
    GetPut(t.missing, sbom.documentNamespace, sbom, sbom.documentNamespace);
    var e := Ecosystem(p.name);
    GetPut(t.byEcosystem, e, GetOrZero(t.byEcosystem, e) + 1, other);
    TotalPut(t.byEcosystem, e, GetOrZero(t.byEcosystem, e) + 1);
  }

  /** A package with `externalRefs` but no reference of type "purl" (an
      empty list included) stops the script with a ValueError. */
  lemma {:induction false} RefsWithoutPurlRaise(t: Tally, sbom: Sbom, p: Package, normalise: Normaliser)
    requires p.externalRefs.Some?
    requires forall r :: r in p.externalRefs.value ==> r.referenceType != PurlType
    ensures AfterPackage(t, sbom, p, normalise) == Raised(ValueError(MissingPurlMessage(p.name, sbom.documentNamespace)))
  {
    var refs := p.externalRefs.value;
    assert forall q :: 0 <= q < |refs| ==> refs[q] in refs;
  }

  lemma {:induction false} FirstPurlAppend(refs: seq<ExternalRef>, later: seq<ExternalRef>, k: nat)
    requires k <= |refs| && FirstPurl(refs, k).Some?
    ensures FirstPurl(refs + later, k) == FirstPurl(refs, k)
    decreases |refs| - k
  {
    if refs[k].referenceType != PurlType {
      FirstPurlAppend(refs, later, k + 1);
    }
  }

  /** Only the first "purl" reference is used: references after it, purls
      or not, make no difference. */
  lemma {:induction false} LaterRefsIgnored(t: Tally, sbom: Sbom, name: string, refs: seq<ExternalRef>, later: seq<ExternalRef>,
                         normalise: Normaliser)
    requires FirstPurl(refs, 0).Some?
    ensures AfterPackage(t, sbom, Package(name, Some(refs + later)), normalise)
         == AfterPackage(t, sbom, Package(name, Some(refs)), normalise)
  {
    FirstPurlAppend(refs, later, 0);
    var i := FirstPurl(refs, 0).value;
    assert (refs + later)[i] == refs[i];
  }

  /** A package with a "purl" reference adds the normalised form of the
      first one's locator to the PURLs and changes nothing else. */
  lemma {:induction false} PurlPackageAddsFirst(t: Tally, sbom: Sbom, p: Package, normalise: Normaliser)
    requires p.externalRefs.Some? && FirstPurl(p.externalRefs.value, 0).Some?
    requires normalise(p.externalRefs.value[FirstPurl(p.externalRefs.value, 0).value].referenceLocator).Returned?
    ensures var purl := normalise(p.externalRefs.value[FirstPurl(p.externalRefs.value, 0).value].referenceLocator).value;
      AfterPackage(t, sbom, p, normalise) == Returned(Tally(t.purls + {purl}, t.missing, t.byEcosystem))
  {
  }

  /** The number of packages of a list that have no `externalRefs`. */
  function WithoutRefs(packages: seq<Package>): nat
  {
    if packages == [] then 0 else (if packages[0].externalRefs.None? then 1 else 0) + WithoutRefs(packages[1..])
  }

  /** Over an SBOM that is tallied to the end, the counts grow by the number
      of packages without references, no PURL is lost, and neither
      dictionary ever lists a key twice. */
  lemma {:induction false} PackagesTally(t: Tally, sbom: Sbom, packages: seq<Package>, normalise: Normaliser)
    requires AfterPackages(t, sbom, packages, normalise).Returned?
    requires KeysDistinct(t.missing) && KeysDistinct(t.byEcosystem)
    ensures var n := AfterPackages(t, sbom, packages, normalise).value;
      && Total(n.byEcosystem) == Total(t.byEcosystem) + WithoutRefs(packages)
      && t.purls <= n.purls
      && KeysDistinct(n.missing) && KeysDistinct(n.byEcosystem)
    decreases |packages|
  {
    if packages != [] {
      var p := packages[0];
      var next := AfterPackage(t, sbom, p, normalise).value;
      if p.externalRefs.None? {
        PackageWithoutRefs(t, sbom, p, normalise, "");
        PutKeepsKeysDistinct(t.missing, sbom.documentNamespace, sbom);
        PutKeepsKeysDistinct(t.byEcosystem, Ecosystem(p.name), GetOrZero(t.byEcosystem, Ecosystem(p.name)) + 1);
      }
      PackagesTally(next, sbom, packages[1..], normalise);
    }
  }

  /** The dependency page of a GitHub SBOM namespace
      `<repository URL>/<a>/<b>` is the repository's own dependency graph
      page. */
  lemma {:induction false} DependencyUrlOfNamespace(repository: string, a: string, b: string)
    requires '/' !in a && '/' !in b
    ensures DependencyUrl(repository + "/" + a + "/" + b) == repository + "/network/dependencies"
  {
    var ns := repository + "/" + a + "/" + b;
    assert ns == repository + ['/'] + (a + ['/'] + b);
    SplitAround(repository, '/', a + ['/'] + b);
    SplitAround(a, '/', b);
    ContainsChar(a, '/');
    ContainsChar(b, '/');
    SplitFree(a, "/");
    SplitFree(b, "/");
    var segments := Split(ns, "/");
    assert segments == Split(repository, "/") + [a, b];
    assert segments[..PyBound(-2, |segments|)] == Split(repository, "/");
    JoinSplit(repository, "/");
  }

  /** A namespace with fewer than two '/' loses everything: the page is the
      bare suffix. */
  lemma {:induction false} DependencyUrlWithoutSlash(namespace: string)
    requires '/' !in namespace
    ensures DependencyUrl(namespace) == "/network/dependencies"
  {
    ContainsChar(namespace, '/');
    SplitFree(namespace, "/");
  }
}
