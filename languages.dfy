/** `pull_languages.py`: for every repository named in
    `repository_names.txt`, its copy in the Chainguard-Wolfi-Bites-Back
    organisation is looked up and, when it exists, its languages and its
    code scanning default setup are fetched. The lines of the file and the
    HTTP exchange (a response or an exception per URL) are given as inputs. */
module PullLanguages {
  import opened Outcomes
  import opened PyStrings
  import opened PyStringFacts
  import opened SeqFacts

  const Org: string := "Chainguard-Wolfi-Bites-Back"

  /** A decoded JSON body, kept as its text. */
  datatype Json = Json(text: string)

  /** What `requests.get` returned: the status and the decoded body. */
  datatype HttpResponse = HttpResponse(status: int, body: Json)

  /** One object of `repository_languages.json`. */
  datatype Entry = Entry(repositoryName: string, languages: Json, defaultCodeScanning: Json)

  function RepositoryUrl(repoName: string): string
  {
    "https://api.github.com/repos/" + repoName
  }

  /** `languages_url`. */
  function LanguagesUrl(repoName: string): string
  {
    "https://api.github.com/repos/" + repoName + "/languages"
  }

  /** `code_scanning_default_url`. */
  function CodeScanningDefaultUrl(repoName: string): string
  {
    "https://api.github.com/repos/" + repoName + "/code-scanning/default-setup"
  }

  /** `transform_repository_name`: the name of the copy in the organisation,
      each '/' of `owner/name` replaced by "__". */
  function TransformRepositoryName(repositoryName: string): string
  {
    Org + "/" + Replace(repositoryName, "/", "__")
  }

  /** `fetch_from_github`: the body, or what the request or
      `raise_for_status` raised. */
  function FetchFromGithub(outcome: Call<HttpResponse>): Call<Json>
  {
    match outcome
    case Raised(e) => Raised(e)
    case Returned(response) =>
      if RaisesForStatus(response.status) then Raised(HttpError(response.status)) else Returned(response.body)
  }

  /** One repository of the loop: skipped (none) when the existence check
      fails with an HTTPError; any other failure ends the script. */
  function RepositoryEntry(name: string, fetch: string -> Call<HttpResponse>): Call<Option<Entry>>
  {
    var repoName := TransformRepositoryName(name);
    match FetchFromGithub(fetch(RepositoryUrl(repoName)))
    case Raised(e) => if e.HttpError? then Returned(None) else Raised(e)
    case Returned(_) =>
      match FetchFromGithub(fetch(LanguagesUrl(repoName)))
      case Raised(e) => Raised(e)
      case Returned(languages) =>
        match FetchFromGithub(fetch(CodeScanningDefaultUrl(repoName)))
        case Raised(e) => Raised(e)
        case Returned(codeScanning) => Returned(Some(Entry(repoName, languages, codeScanning)))
  }

  /** The output list for the repositories in order, or the first failure. */
  function Entries(names: seq<string>, fetch: string -> Call<HttpResponse>): Call<seq<Entry>>
  {
    if names == [] then Returned([])
    else
      match Entries(names[..|names| - 1], fetch)
      case Raised(e) => Raised(e)
      case Returned(earlier) =>
        match RepositoryEntry(names[|names| - 1], fetch)
        case Raised(e) => Raised(e)
        case Returned(entry) => Returned(earlier + (if entry.Some? then [entry.value] else []))
  }

  /** The repository names: every line stripped, in file order. */
  function StrippedLines(lines: seq<string>): (r: seq<string>)
    ensures |r| == |lines|
  {
    if lines == [] then [] else StrippedLines(lines[..|lines| - 1]) + [Strip(lines[|lines| - 1])]
  }

  /** The loop that reads `repository_names.txt`. */
  method ReadRepositoryNames(lines: seq<string>) returns (names: seq<string>)
    ensures names == StrippedLines(lines)
  {
    names := [];
    for i := 0 to |lines|
      invariant names == StrippedLines(lines[..i])
    {
      assert lines[..i + 1][..i] == lines[..i];
      names := names + [Strip(lines[i])];
    }
    assert lines[..|lines|] == lines;
  }

  /** The `__main__` block: the names read from the file, then the loop;
      the list it writes, or the failure that stopped it. */
  method PullRepositoryLanguages(lines: seq<string>, fetch: string -> Call<HttpResponse>)
    returns (result: Call<seq<Entry>>)
    ensures result == Entries(StrippedLines(lines), fetch)
  {
    var repositoryNames := ReadRepositoryNames(lines);
    var outputData: seq<Entry> := [];
    for i := 0 to |repositoryNames|
      invariant Entries(repositoryNames[..i], fetch) == Returned(outputData)
    {
      var repositoryName := TransformRepositoryName(repositoryNames[i]);
      var exists_ := FetchFromGithub(fetch(RepositoryUrl(repositoryName)));
      if exists_.Raised? {
        if exists_.exc.HttpError? {
          EntryStep(repositoryNames, i, fetch, outputData, Returned(None));
          continue;
        }
        EntryStep(repositoryNames, i, fetch, outputData, Raised(exists_.exc));
        FailurePersists(repositoryNames, i + 1, fetch, exists_.exc);
        return Raised(exists_.exc);
      }
      var languagesData := FetchFromGithub(fetch(LanguagesUrl(repositoryName)));
      if languagesData.Raised? {
        EntryStep(repositoryNames, i, fetch, outputData, Raised(languagesData.exc));
        FailurePersists(repositoryNames, i + 1, fetch, languagesData.exc);
        return Raised(languagesData.exc);
      }
      var codeScanningData := FetchFromGithub(fetch(CodeScanningDefaultUrl(repositoryName)));
      if codeScanningData.Raised? {
        EntryStep(repositoryNames, i, fetch, outputData, Raised(codeScanningData.exc));
        FailurePersists(repositoryNames, i + 1, fetch, codeScanningData.exc);
        return Raised(codeScanningData.exc);
      }
      var entry := Entry(repositoryName, languagesData.value, codeScanningData.value);
      EntryStep(repositoryNames, i, fetch, outputData, Returned(Some(entry)));
      outputData := outputData + [entry];
    }
    assert repositoryNames[..|repositoryNames|] == repositoryNames;
    return Returned(outputData);
  }

  /** Once a prefix of the names has failed, the whole run has failed the
      same way. */
  lemma {:induction false} FailurePersists(names: seq<string>, k: nat, fetch: string -> Call<HttpResponse>, e: Exception)
    requires k <= |names| && Entries(names[..k], fetch) == Raised(e)
    ensures Entries(names, fetch) == Raised(e)
    decreases |names| - k
  {
    if k < |names| {
      var init := names[..|names| - 1];
      assert init[..k] == names[..k];
      FailurePersists(init, k, fetch, e);
    } else {
      assert names[..k] == names;
    }
  }

  /** One more repository of the loop: what it gives decides the run so far. */
  lemma {:induction false} EntryStep(names: seq<string>, i: nat, fetch: string -> Call<HttpResponse>, earlier: seq<Entry>,
                  step: Call<Option<Entry>>)
    requires i < |names| && Entries(names[..i], fetch) == Returned(earlier)
    requires RepositoryEntry(names[i], fetch) == step
    ensures step.Raised? ==> Entries(names[..i + 1], fetch) == Raised(step.exc)
    ensures step == Returned(None) ==> Entries(names[..i + 1], fetch) == Returned(earlier)
    ensures step.Returned? && step.value.Some? ==> Entries(names[..i + 1], fetch) == Returned(earlier + [step.value.value])
  {
    assert names[..i + 1][..i] == names[..i];
    assert earlier + [] == earlier;
  }

  // ---------------------------------------------------------------------
  // Properties
  // ---------------------------------------------------------------------

  /** The transformed name is the organisation, one '/', and the original
      name with each '/' written as "__": its only '/' is the one ending the
      organisation. */
  lemma {:induction false} TransformedNameHasOneSlash(repositoryName: string)
    ensures var t := TransformRepositoryName(repositoryName);
      && t == Org + "/" + SubstituteChar(repositoryName, '/', "__")
      && |Org| < |t| && t[|Org|] == '/'
      && forall i :: 0 <= i < |t| && t[i] == '/' ==> i == |Org|
  {
    var replaced := Replace(repositoryName, "/", "__");
    ReplaceRemoves(repositoryName, '/', "__");
    ReplaceIsSubstitution(repositoryName, '/', "__");
    var t := Org + "/" + replaced;
    assert '/' !in Org;
    forall i | 0 <= i < |t| && i != |Org| ensures t[i] != '/' {
      if i < |Org| {
        assert t[i] == Org[i] && Org[i] in Org;
      } else {
        assert t[i] == replaced[i - |Org| - 1];
        assert replaced[i - |Org| - 1] in replaced;
      }
    }
  }

  /** The transformed name of `owner/name` is `Org/owner__name`. */
  lemma {:induction false} TransformOwnerName(owner: string, name: string)
    requires '/' !in owner && '/' !in name
    ensures TransformRepositoryName(owner + "/" + name) == Org + "/" + owner + "__" + name
  {
    ReplaceIsSubstitution(owner + "/" + name, '/', "__");
    SubstituteConcat(owner, "/" + name, '/', "__");
    SubstituteConcat("/", name, '/', "__");
    SubstituteAbsent(owner, '/', "__");
    SubstituteAbsent(name, '/', "__");
    AppendAssociates(owner, "/", name);
  }

  /** Two repositories of owners without '_' (as GitHub logins are) never
      share a copy: the transformation loses nothing. */
  lemma {:induction false} TransformInjective(owner1: string, name1: string, owner2: string, name2: string)
    requires '/' !in owner1 && '/' !in name1 && '/' !in owner2 && '/' !in name2
    requires '_' !in owner1 && '_' !in owner2
    requires TransformRepositoryName(owner1 + "/" + name1) == TransformRepositoryName(owner2 + "/" + name2)
    ensures owner1 == owner2 && name1 == name2
  {
    TransformOwnerName(owner1, name1);
    TransformOwnerName(owner2, name2);
    var s1, s2 := owner1 + "__" + name1, owner2 + "__" + name2;
    assert s1 == s2 by {
      assert Org + "/" + owner1 + "__" + name1 == (Org + "/") + s1;
      assert Org + "/" + owner2 + "__" + name2 == (Org + "/") + s2;
      assert s1 == ((Org + "/") + s1)[|Org + "/"|..];
    }
    FirstUnderscore(owner1, name1);
    FirstUnderscore(owner2, name2);
    assert owner1 == s1[..|owner1|] && owner2 == s2[..|owner2|];
    assert name1 == s1[|owner1| + 2..] && name2 == s2[|owner2| + 2..];
  }

  /** The first '_' of `owner__name` ends the owner, when the owner has none. */
  lemma {:induction false} FirstUnderscore(owner: string, name: string)
    requires '_' !in owner
    ensures Find(owner + "__" + name, "_") == Some(|owner|)
  {
    var s := owner + "__" + name;
    assert OccursAt(s, "_", |owner|) by { assert s[|owner|..|owner| + 1] == "_"; }
    forall j: nat | j < |owner| ensures !OccursAt(s, "_", j) {
      assert s[j] == owner[j];
      assert owner[j] in owner;
      assert s[j..j + 1][0] == s[j];
    }
  }

  /** The three URLs of a repository share its API URL. */
  lemma {:induction false} UrlsShareRepository(repoName: string)
    ensures LanguagesUrl(repoName) == RepositoryUrl(repoName) + "/languages"
    ensures CodeScanningDefaultUrl(repoName) == RepositoryUrl(repoName) + "/code-scanning/default-setup"
  {
  }

  /** A repository is skipped exactly when its existence check fails with
      an HTTPError; another failure of that check, or any failure of the two
      later requests, is raised. */
  lemma {:induction false} SkipOnlyOnHttpError(name: string, fetch: string -> Call<HttpResponse>)
    ensures var check := FetchFromGithub(fetch(RepositoryUrl(TransformRepositoryName(name))));
      && (RepositoryEntry(name, fetch) == Returned(None) <==> check.Raised? && check.exc.HttpError?)
      && (check.Raised? && !check.exc.HttpError? ==> RepositoryEntry(name, fetch) == Raised(check.exc))
  {
  }

  /** The names whose existence check does not fail with an HTTPError, in
      order. */
  function Survivors(names: seq<string>, fetch: string -> Call<HttpResponse>): seq<string>
  {
    if names == [] then []
    else
      var check := FetchFromGithub(fetch(RepositoryUrl(TransformRepositoryName(names[|names| - 1]))));
      Survivors(names[..|names| - 1], fetch) + (if check.Raised? && check.exc.HttpError? then [] else [names[|names| - 1]])
  }

  /** A run that completes has one entry per surviving repository, in input
      order, keyed by its transformed name and holding what the two later
      requests returned. */
  lemma {:induction false} EntriesFollowSurvivors(names: seq<string>, fetch: string -> Call<HttpResponse>)
    requires Entries(names, fetch).Returned?
    ensures var es, s := Entries(names, fetch).value, Survivors(names, fetch);
      && |es| == |s|
      && forall i :: 0 <= i < |es| ==>
           && es[i].repositoryName == TransformRepositoryName(s[i])
           && Returned(es[i].languages) == FetchFromGithub(fetch(LanguagesUrl(es[i].repositoryName)))
           && Returned(es[i].defaultCodeScanning) == FetchFromGithub(fetch(CodeScanningDefaultUrl(es[i].repositoryName)))
  {
    if names != [] {
      EntriesFollowSurvivors(names[..|names| - 1], fetch);
    }
  }
}
