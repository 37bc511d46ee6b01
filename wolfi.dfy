/** `wolfi-repo-names.py`: the GitHub repositories named by the Wolfi package
    descriptors, from their `update.github.identifier` entry and from the
    `repository` of every `git-checkout` pipeline step, printed sorted. The
    loaded descriptors are given in the order the directory listing yields
    them. */
module WolfiRepoNames {
  import opened Outcomes
  import opened PyStrings
  import opened PyStringFacts
  import opened Ordering

  /** A value loaded by `yaml.safe_load`: a string, a mapping (its entries
      in document order), a list, or any other scalar (a number, a boolean,
      null). */
  datatype Yaml =
    | Str(text: string)
    | Mapping(entries: seq<(string, Yaml)>)
    | Sequence(items: seq<Yaml>)
    | Scalar

  /** The value of the last entry with key `key`: `yaml.safe_load` keeps the
      last of a repeated key, as assigning into a dict does. */
  function Lookup(entries: seq<(string, Yaml)>, key: string): (r: Option<Yaml>)
    ensures r.Some? ==> exists i :: 0 <= i < |entries| && entries[i] == (key, r.value)
                                    && forall j :: i < j < |entries| ==> entries[j].0 != key
    ensures r.None? ==> forall i :: 0 <= i < |entries| ==> entries[i].0 != key
  {
    if entries == [] then None
    else if entries[|entries| - 1].0 == key then Some(entries[|entries| - 1].1)
    else
      var r := Lookup(entries[..|entries| - 1], key);
      assert forall i :: 0 <= i < |entries| - 1 ==> entries[i] == entries[..|entries| - 1][i];
      r
  }

  /** `key in y`: a key of a mapping, an element of a list, a substring of
      a string; a TypeError for any other scalar. */
  function In(y: Yaml, key: string): Call<bool>
  {
    match y
    case Mapping(entries) => Returned(Lookup(entries, key).Some?)
    case Sequence(items) => Returned(Str(key) in items)
    case Str(text) => Returned(Contains(text, key))
    case Scalar => Raised(TypeError)
  }

  /** `y[key]`: only a mapping can be indexed by a string. */
  function Index(y: Yaml, key: string): Call<Yaml>
  {
    match y
    case Mapping(entries) => if Lookup(entries, key).Some? then Returned(Lookup(entries, key).value) else Raised(KeyError(key))
    case _ => Raised(TypeError)
  }

  /** The keys of a mapping, in order, as the strings a `for` over it yields. */
  function Keys(entries: seq<(string, Yaml)>): (r: seq<Yaml>)
    ensures |r| == |entries|
    ensures forall i :: 0 <= i < |entries| ==> r[i] == Str(entries[i].0)
  {
    if entries == [] then [] else [Str(entries[0].0)] + Keys(entries[1..])
  }

  /** The one-character strings of a string, as a `for` over it yields. */
  function Characters(s: string): (r: seq<Yaml>)
    ensures |r| == |s|
    ensures forall i :: 0 <= i < |s| ==> r[i] == Str([s[i]])
  {
    if s == [] then [] else [Str([s[0]])] + Characters(s[1..])
  }

  /** `for x in y`: the keys of a mapping, the elements of a list, the
      characters of a string; a TypeError for any other scalar. */
  function Elements(y: Yaml): Call<seq<Yaml>>
  {
    match y
    case Mapping(entries) => Returned(Keys(entries))
    case Sequence(items) => Returned(items)
    case Str(text) => Returned(Characters(text))
    case Scalar => Raised(TypeError)
  }

  /** `if key not in y: <skip>` followed by `y[key]`: the value, none when
      the key is absent, or what either step raised. */
  function Child(y: Yaml, key: string): Call<Option<Yaml>>
  {
    match In(y, key)
    case Raised(e) => Raised(e)
    case Returned(present) =>
      if !present then Returned(None)
      else
        match Index(y, key)
        case Raised(e) => Raised(e)
        case Returned(v) => Returned(Some(v))
  }

  const GitCheckout: string := "git-checkout"
  const GithubPrefix: string := "https://github.com/"

  /** What part of the run adds to the set of repositories, and what it
      raised, if anything. A raise ends the whole run. */
  datatype Contribution = Contribution(added: set<string>, raised: Option<Exception>)

  const Nothing := Contribution({}, None)

  function Failed(e: Exception): Contribution
  {
    Contribution({}, Some(e))
  }

  /** Two parts run one after the other: the second does not run once the
      first has raised. */
  function Then(a: Contribution, b: Contribution): (r: Contribution)
    ensures a.raised.Some? ==> r == a
    ensures a.raised.None? ==> r.added == a.added + b.added && r.raised == b.raised
  {
    if a.raised.Some? then a else Contribution(a.added + b.added, b.raised)
  }

  /** `repositories.add(identifier)`: a string is added; a mapping or list is
      unhashable. */
  function Added(identifier: Yaml): Contribution
  {
    match identifier
    case Str(s) => Contribution({s}, None)
    case _ => Failed(TypeError)
  }

  /** `add_repository_from_update_yaml`. */
  function FromUpdate(update: Yaml): Contribution
  {
    match Child(update, "github")
    case Raised(e) => Failed(e)
    case Returned(github) =>
      if github.None? then Nothing
      else
        match Child(github.value, "identifier")
        case Raised(e) => Failed(e)
        case Returned(identifier) =>
          if identifier.None? then Nothing else Added(identifier.value)
  }

  /** One pipeline step: the repository it names (its `https://github.com/`
      occurrences removed), none when a guard skips it, or what it raised. */
  function StepRepository(step: Yaml): Call<Option<string>>
  {
    match Child(step, "uses")
    case Raised(e) => Raised(e)
    case Returned(uses) =>
      if uses.None? || uses.value != Str(GitCheckout) then Returned(None)
      else
        match Child(step, "with")
        case Raised(e) => Raised(e)
        case Returned(with_) =>
          if with_.None? then Returned(None)
          else
            match Child(with_.value, "repository")
            case Raised(e) => Raised(e)
            case Returned(repository) =>
              if repository.None? then Returned(None)
              else if repository.value.Str? then Returned(Some(Replace(repository.value.text, GithubPrefix, "")))
              else Raised(AttributeError)
  }

  function StepContribution(step: Yaml): Contribution
  {
    match StepRepository(step)
    case Raised(e) => Failed(e)
    case Returned(r) => if r.None? then Nothing else Contribution({r.value}, None)
  }

  /** The steps from the first on, stopping at the first raise. */
  function FromSteps(steps: seq<Yaml>): Contribution
  {
    if steps == [] then Nothing else Then(StepContribution(steps[0]), FromSteps(steps[1..]))
  }

  /** `add_repository_from_pipeline_yaml`. */
  function FromPipeline(pipeline: Yaml): Contribution
  {
    match Child(pipeline, "steps")
    case Raised(e) => Failed(e)
    case Returned(steps) =>
      if steps.None? then Nothing
      else
        match Elements(steps.value)
        case Raised(e) => Failed(e)
        case Returned(items) => FromSteps(items)
  }

  /** A descriptor: its `update` entry, then its `pipeline` entry. */
  function FromDescriptor(descriptor: Yaml): Contribution
  {
    var update :=
      match Child(descriptor, "update")
      case Raised(e) => Failed(e)
      case Returned(u) => if u.None? then Nothing else FromUpdate(u.value);
    var pipeline :=
      match Child(descriptor, "pipeline")
      case Raised(e) => Failed(e)
      case Returned(p) => if p.None? then Nothing else FromPipeline(p.value);
    Then(update, pipeline)
  }

  /** Every descriptor in turn, stopping at the first raise. */
  function FromDescriptors(descriptors: seq<Yaml>): Contribution
  {
    if descriptors == [] then Nothing
    else Then(FromDescriptor(descriptors[0]), FromDescriptors(descriptors[1..]))
  }

  /** The module-level `repositories` set and the two functions that add to it. */
  class RepositoryCollector {
    var repositories: set<string>

    constructor()
      ensures repositories == {}
    {
      repositories := {};
    }

    /** `add_repository_from_update_yaml(update)`. */
    method AddFromUpdate(update: Yaml) returns (raised: Option<Exception>)
      modifies this
      ensures repositories == old(repositories) + FromUpdate(update).added
      ensures raised == FromUpdate(update).raised
    {
      var github := Child(update, "github");
      if github.Raised? {
        return Some(github.exc);
      }
      if github.value.None? {
        return None;
      }
      var identifier := Child(github.value.value, "identifier");
      if identifier.Raised? {
        return Some(identifier.exc);
      }
      if identifier.value.None? {
        return None;
      }
      var id := identifier.value.value;
      if !id.Str? {
        return Some(TypeError);
      }
      repositories := repositories + {id.text};
      raised := None;
    }

    /** `add_repository_from_pipeline_yaml(pipeline)`: every step whose
        guards all pass adds its repository; a raise stops the loop and
        keeps what earlier steps added. */
    method AddFromPipeline(pipeline: Yaml) returns (raised: Option<Exception>)
      modifies this
      ensures repositories == old(repositories) + FromPipeline(pipeline).added
      ensures raised == FromPipeline(pipeline).raised
    {
      var stepsEntry := Child(pipeline, "steps");
      if stepsEntry.Raised? {
        return Some(stepsEntry.exc);
      }
      if stepsEntry.value.None? {
        return None;
      }
      var elements := Elements(stepsEntry.value.value);
      if elements.Raised? {
        return Some(elements.exc);
      }
      var steps := elements.value;
      assert steps[0..] == steps;
      for i := 0 to |steps|
        invariant PartialSteps(steps, i, old(repositories), repositories)
      {
        var step := steps[i];
        var uses := Child(step, "uses");
        if uses.Raised? {
          StepRaises(steps, i, old(repositories), repositories, uses.exc);
          return Some(uses.exc);
        }
        if uses.value.None? || uses.value.value != Str(GitCheckout) {
          StepSkips(steps, i, old(repositories), repositories);
          continue;
        }
        var with_ := Child(step, "with");
        if with_.Raised? {
          StepRaises(steps, i, old(repositories), repositories, with_.exc);
          return Some(with_.exc);
        }
        if with_.value.None? {
          StepSkips(steps, i, old(repositories), repositories);
          continue;
        }
        var repository := Child(with_.value.value, "repository");
        if repository.Raised? {
          StepRaises(steps, i, old(repositories), repositories, repository.exc);
          return Some(repository.exc);
        }
        if repository.value.None? {
          StepSkips(steps, i, old(repositories), repositories);
          continue;
        }
        if !repository.value.value.Str? {
          StepRaises(steps, i, old(repositories), repositories, AttributeError);
          return Some(AttributeError);
        }
        // Remove the https://github.com/ prefix
        var name := Replace(repository.value.value.text, GithubPrefix, "");
        StepAdds(steps, i, old(repositories), repositories, name, repositories + {name});
        repositories := repositories + {name};
      }
      assert steps[|steps|..] == [];
      raised := None;
    }
  }

  /** After the first k steps, the set holds what the start held, what
      those steps added, and what the rest will add is the remainder. */
  predicate PartialSteps(steps: seq<Yaml>, k: nat, start: set<string>, current: set<string>)
  {
    k <= |steps|
    && FromSteps(steps[k..]).raised == FromSteps(steps).raised
    && current + FromSteps(steps[k..]).added == start + FromSteps(steps).added
    && start <= current
  }

  lemma {:induction false} StepSkips(steps: seq<Yaml>, k: nat, start: set<string>, current: set<string>)
    requires k < |steps| && PartialSteps(steps, k, start, current)
    requires StepRepository(steps[k]) == Returned(None)
    ensures PartialSteps(steps, k + 1, start, current)
  {
    assert steps[k..][1..] == steps[k + 1..];
  }

  lemma {:induction false} StepAdds(steps: seq<Yaml>, k: nat, start: set<string>, current: set<string>, name: string,
                 next: set<string>)
    requires k < |steps| && PartialSteps(steps, k, start, current)
    requires StepRepository(steps[k]) == Returned(Some(name)) && next == current + {name}
    ensures PartialSteps(steps, k + 1, start, next)
  {
    assert steps[k..][1..] == steps[k + 1..];
  }

  lemma {:induction false} StepRaises(steps: seq<Yaml>, k: nat, start: set<string>, current: set<string>, e: Exception)
    requires k < |steps| && PartialSteps(steps, k, start, current)
    requires StepRepository(steps[k]) == Raised(e)
    ensures current == start + FromSteps(steps).added
    ensures FromSteps(steps).raised == Some(e)
  {
  }

  /** `main()`: every descriptor's `update`, then its `pipeline`, into one
      set, listed in sorted order. A raise anywhere ends the run without
      output. */
  method CollectRepositories(descriptors: seq<Yaml>) returns (result: Call<seq<string>>)
    ensures FromDescriptors(descriptors).raised.Some? ==>
      result == Raised(FromDescriptors(descriptors).raised.value)
    ensures FromDescriptors(descriptors).raised.None? ==>
      result.Returned? && SortedListOf(result.value, FromDescriptors(descriptors).added)
  {
    var collector := new RepositoryCollector();
    assert descriptors[0..] == descriptors;
    for i := 0 to |descriptors|
      invariant PartialDescriptors(descriptors, i, collector.repositories)
    {
      var descriptor := descriptors[i];
      ghost var before := collector.repositories;
      var raised: Option<Exception> := None;
      var update := Child(descriptor, "update");
      if update.Raised? {
        raised := Some(update.exc);
      } else if update.value.Some? {
        raised := collector.AddFromUpdate(update.value.value);
      }
      if raised.None? {
        var pipeline := Child(descriptor, "pipeline");
        if pipeline.Raised? {
          raised := Some(pipeline.exc);
        } else if pipeline.value.Some? {
          raised := collector.AddFromPipeline(pipeline.value.value);
        }
      }
      assert collector.repositories == before + FromDescriptor(descriptor).added;
      assert raised == FromDescriptor(descriptor).raised;
      if raised.Some? {
        DescriptorRaises(descriptors, i, before);
        return Raised(raised.value);
      }
      DescriptorAdvances(descriptors, i, before, collector.repositories);
    }
    assert descriptors[|descriptors|..] == [];
    var sorted := Sorted(collector.repositories);
    return Returned(sorted);
  }

  predicate PartialDescriptors(descriptors: seq<Yaml>, k: nat, current: set<string>)
  {
    k <= |descriptors|
    && FromDescriptors(descriptors[k..]).raised == FromDescriptors(descriptors).raised
    && current + FromDescriptors(descriptors[k..]).added == FromDescriptors(descriptors).added
  }

  lemma {:induction false} DescriptorAdvances(descriptors: seq<Yaml>, k: nat, current: set<string>, next: set<string>)
    requires k < |descriptors| && PartialDescriptors(descriptors, k, current)
    requires FromDescriptor(descriptors[k]).raised.None?
    requires next == current + FromDescriptor(descriptors[k]).added
    ensures PartialDescriptors(descriptors, k + 1, next)
  {
    assert descriptors[k..][1..] == descriptors[k + 1..];
  }

  lemma {:induction false} DescriptorRaises(descriptors: seq<Yaml>, k: nat, current: set<string>)
    requires k < |descriptors| && PartialDescriptors(descriptors, k, current)
    requires FromDescriptor(descriptors[k]).raised.Some?
    ensures FromDescriptors(descriptors).raised == FromDescriptor(descriptors[k]).raised
  {
  }

  // ---------------------------------------------------------------------
  // Properties
  // ---------------------------------------------------------------------

  /** An update with a `github` mapping that has a string `identifier` adds
      exactly that identifier. */
  lemma {:induction false} UpdateAddsIdentifier(entries: seq<(string, Yaml)>, github: seq<(string, Yaml)>, id: string)
    requires Lookup(entries, "github") == Some(Mapping(github))
    requires Lookup(github, "identifier") == Some(Str(id))
    ensures FromUpdate(Mapping(entries)) == Contribution({id}, None)
  {
  }

  /** An update without `github`, or whose `github` has no `identifier`,
      leaves the set unchanged. */
  lemma {:induction false} UpdateWithoutKeysAddsNothing(entries: seq<(string, Yaml)>)
    requires Lookup(entries, "github").None?
      || (Lookup(entries, "github").value.Mapping? && Lookup(Lookup(entries, "github").value.entries, "identifier").None?)
    ensures FromUpdate(Mapping(entries)) == Nothing
  {
  }

  /** Whatever its shape, an update adds at most one name, and only the
      string under `identifier` inside the value under `github`. */
  lemma {:induction false} UpdateAddsOnlyItsIdentifier(update: Yaml)
    ensures |FromUpdate(update).added| <= 1
    ensures forall s :: s in FromUpdate(update).added ==>
      && Child(update, "github").Returned? && Child(update, "github").value.Some?
      && Child(Child(update, "github").value.value, "identifier") == Returned(Some(Str(s)))
  {
  }

  /** A `git-checkout` step with a `with` mapping naming a string
      `repository` contributes that repository, its GitHub prefix removed. */
  lemma {:induction false} CheckoutStepContributes(entries: seq<(string, Yaml)>, with_: seq<(string, Yaml)>, repository: string)
    requires Lookup(entries, "uses") == Some(Str(GitCheckout))
    requires Lookup(entries, "with") == Some(Mapping(with_))
    requires Lookup(with_, "repository") == Some(Str(repository))
    ensures StepRepository(Mapping(entries)) == Returned(Some(Replace(repository, GithubPrefix, "")))
  {
  }

  /** A step contributes only when its `uses` is exactly `git-checkout`,
      it has a `with` value and that value has a string `repository`. */
  lemma {:induction false} StepContributesOnlyIf(step: Yaml)
    ensures StepRepository(step).Returned? && StepRepository(step).value.Some? ==>
      && Child(step, "uses") == Returned(Some(Str(GitCheckout)))
      && Child(step, "with").Returned? && Child(step, "with").value.Some?
      && var w := Child(step, "with").value.value;
         Child(w, "repository").Returned? && Child(w, "repository").value.Some?
         && Child(w, "repository").value.value.Str?
         && StepRepository(step).value.value == Replace(Child(w, "repository").value.value.text, GithubPrefix, "")
  {
  }

  /** A pipeline without `steps` leaves the set unchanged. */
  lemma {:induction false} PipelineWithoutStepsAddsNothing(entries: seq<(string, Yaml)>)
    requires Lookup(entries, "steps").None?
    ensures FromPipeline(Mapping(entries)) == Nothing
  {
  }

  /** A run of steps that raises nothing adds the repository of every
      contributing step, and nothing else. */
  lemma {:induction false} StepsCollectEveryCheckout(steps: seq<Yaml>)
    requires FromSteps(steps).raised.None?
    ensures forall i :: 0 <= i < |steps| ==> StepRepository(steps[i]).Returned?
    ensures forall i :: 0 <= i < |steps| && StepRepository(steps[i]).value.Some? ==>
      StepRepository(steps[i]).value.value in FromSteps(steps).added
    ensures forall s :: s in FromSteps(steps).added ==>
      exists i :: 0 <= i < |steps| && StepRepository(steps[i]) == Returned(Some(s))
  {
    if steps != [] {
      StepsCollectEveryCheckout(steps[1..]);
      forall s | s in FromSteps(steps).added
        ensures exists i :: 0 <= i < |steps| && StepRepository(steps[i]) == Returned(Some(s))
      {
        if s !in StepContribution(steps[0]).added {
          var i :| 0 <= i < |steps[1..]| && StepRepository(steps[1..][i]) == Returned(Some(s));
          assert steps[i + 1] == steps[1..][i];
        }
      }
      forall i | 0 < i < |steps| ensures steps[i] == steps[1..][i - 1] {
      }
    }
  }

  /** The GitHub prefix of a repository URL is removed, leaving the
      `owner/name` identifier. */
  lemma {:induction false} PrefixRemoved(name: string)
    requires !Contains(name, GithubPrefix)
    ensures Replace(GithubPrefix + name, GithubPrefix, "") == name
  {
    var s := GithubPrefix + name;
    assert OccursAt(s, GithubPrefix, 0) by { assert s[..|GithubPrefix|] == GithubPrefix; }
    SplitStep(s, GithubPrefix, 0);
    assert s[|GithubPrefix|..] == name;
    SplitFree(name, GithubPrefix);
    assert Split(s, GithubPrefix) == ["", name];
    assert ["", name][1..] == [name];
    assert Join(["", name], "") == "" + "" + name;
  }

  /** An identifier already without the prefix is left as it is. */
  lemma {:induction false} PrefixFreeUnchanged(name: string)
    requires !Contains(name, GithubPrefix)
    ensures Replace(name, GithubPrefix, "") == name
  {
    SplitFree(name, GithubPrefix);
  }

  /** A descriptor whose `update` and `pipeline` are both present gets both
      contributions: the pipeline runs unless the update raised. */
  lemma {:induction false} BothKeysContribute(entries: seq<(string, Yaml)>, update: Yaml, pipeline: Yaml)
    requires Lookup(entries, "update") == Some(update) && Lookup(entries, "pipeline") == Some(pipeline)
    ensures FromUpdate(update).raised.None? ==>
      FromDescriptor(Mapping(entries)) == Contribution(FromUpdate(update).added + FromPipeline(pipeline).added,
                                                       FromPipeline(pipeline).raised)
    ensures FromUpdate(update).raised.Some? ==> FromDescriptor(Mapping(entries)) == FromUpdate(update)
  {
  }

  lemma {:induction false} ThenAssociative(a: Contribution, b: Contribution, c: Contribution)
    ensures Then(Then(a, b), c) == Then(a, Then(b, c))
  {
  }

  /** Reading one list of descriptors after another is running the first
      and then, unless it raised, the second. */
  lemma {:induction false} FromDescriptorsAppend(a: seq<Yaml>, b: seq<Yaml>)
    ensures FromDescriptors(a + b) == Then(FromDescriptors(a), FromDescriptors(b))
  {
    if a == [] {
      assert a + b == b;
    } else {
      assert (a + b)[1..] == a[1..] + b;
      FromDescriptorsAppend(a[1..], b);
      ThenAssociative(FromDescriptor(a[0]), FromDescriptors(a[1..]), FromDescriptors(b));
    }
  }

  /** Adding to a set is idempotent: reading every descriptor a second time
      changes nothing. */
  lemma {:induction false} RereadChangesNothing(descriptors: seq<Yaml>)
    ensures FromDescriptors(descriptors + descriptors) == FromDescriptors(descriptors)
  {
    FromDescriptorsAppend(descriptors, descriptors);
  }

  /** When nothing raises, the order of the descriptors does not matter, so
      the sorted output does not depend on the directory listing order. */
  lemma {:induction false} OrderDoesNotMatter(a: seq<Yaml>, b: seq<Yaml>, r1: seq<string>, r2: seq<string>)
    requires FromDescriptors(a).raised.None? && FromDescriptors(b).raised.None?
    requires SortedListOf(r1, FromDescriptors(a + b).added) && SortedListOf(r2, FromDescriptors(b + a).added)
    ensures FromDescriptors(a + b).raised.None? && FromDescriptors(b + a).raised.None?
    ensures r1 == r2
  {
    FromDescriptorsAppend(a, b);
    FromDescriptorsAppend(b, a);
    assert FromDescriptors(a + b).added == FromDescriptors(b + a).added;
    SortedListUnique(r1, r2, FromDescriptors(a + b).added);
  }

  /** The output names each collected repository exactly once. */
  lemma {:induction false} OutputListsEachOnce(r: seq<string>, repositories: set<string>)
    requires SortedListOf(r, repositories)
    ensures |r| == |repositories|
    ensures forall i, j :: 0 <= i < j < |r| ==> r[i] != r[j]
  {
    SortedDistinct(r);
    DistinctCardinality(r, repositories);
  }

  lemma {:induction false} DistinctCardinality(r: seq<string>, s: set<string>)
    requires forall i, j :: 0 <= i < |r| && 0 <= j < |r| && i != j ==> r[i] != r[j]
    requires (forall x :: x in r ==> x in s) && (forall x :: x in s ==> x in r)
    ensures |r| == |s|
  {
    if r != [] {
      var t := s - {r[0]};
      forall x | x in r[1..] ensures x in t {
        var k :| 0 <= k < |r[1..]| && r[1..][k] == x;
        assert r[k + 1] == x;
      }
      forall x | x in t ensures x in r[1..] {
        var k :| 0 <= k < |r| && r[k] == x;
        assert k != 0;
        assert r[1..][k - 1] == x;
      }
      DistinctCardinality(r[1..], t);
    }
  }
}
