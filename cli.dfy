/** The fork-and-configure tool of `cli.py`: forking a repository into the
    assessment organisation with a bounded retry on 403, switching off
    repository features and every workflow that is not security related, and
    the main loop over the catalog of repositories. */
module Cli {
  import opened Outcomes
  import opened PyStrings
  import opened PyStringFacts
  import opened PyGithub
  import opened GithubSelenium
  import opened SeqFacts

  // ---------------------------------------------------------------------
  // fork_repo_to_org
  // ---------------------------------------------------------------------

  /** `create_fork` is tried at most this many times. */
  const MaxForkAttempts: nat := 5

  /** The name of the fork in the organisation: owner and name of the source
      joined by a double underscore. */
  function ForkName(repo: Repository): string
  {
    repo.ownerLogin + "__" + repo.name
  }

  /** What `fork_repo_to_org` asks of GitHub and of the clock, in order. */
  datatype ForkEffect =
    | LookUp(name: string)                                             // org.get_repo(name)
    | CreateFork(source: Repository, name: string, defaultBranchOnly: bool)  // org.create_fork(...)
    | Sleep(seconds: nat)                                              // sleep(seconds)

  /** A `create_fork` outcome that the loop retries: a GithubException with status 403. */
  predicate Retryable(outcome: Call<Repository>)
  {
    outcome.Raised? && IsGithubStatus(outcome.exc, 403)
  }

  /** How many `create_fork` calls, from the `k`-th on, fail with 403 in a
      row, stopping at the attempt limit. */
  function RetryableRun(createFork: nat -> Call<Repository>, k: nat): (n: nat)
    requires k <= MaxForkAttempts
    ensures k <= n <= MaxForkAttempts
    ensures forall i :: k <= i < n ==> Retryable(createFork(i))
    ensures n < MaxForkAttempts ==> !Retryable(createFork(n))
    decreases MaxForkAttempts - k
  {
    if k == MaxForkAttempts || !Retryable(createFork(k)) then k
    else RetryableRun(createFork, k + 1)
  }

  /** The effects of `n` failed attempts: each `create_fork` call is followed
      by a sleep of as many seconds as failures so far. */
  function FailedAttempts(source: Repository, name: string, n: nat): seq<ForkEffect>
  {
    if n == 0 then []
    else FailedAttempts(source, name, n - 1) + [CreateFork(source, name, true), Sleep(n)]
  }

  /** What `fork_repo_to_org(org, repo)` returns or raises, and its effects,
      given the outcome of the lookup and of each `create_fork` call. */
  function ForkOutcome(repo: Repository, lookup: Call<Repository>, createFork: nat -> Call<Repository>)
    : (Call<Repository>, seq<ForkEffect>)
  {
    var name := ForkName(repo);
    if lookup.Returned? || !IsUnknownObject(lookup.exc) then
      (lookup, [LookUp(name)])
    else
      var n := RetryableRun(createFork, 0);
      if n < MaxForkAttempts then
        (createFork(n), [LookUp(name)] + FailedAttempts(repo, name, n) + [CreateFork(repo, name, true)])
      else
        (createFork(MaxForkAttempts - 1), [LookUp(name)] + FailedAttempts(repo, name, MaxForkAttempts))
  }

  /** `fork_repo_to_org`: `lookup` is what `org.get_repo` did, `createFork(k)`
      what the `k`-th `org.create_fork` call does. */
  method ForkRepoToOrg(repo: Repository, lookup: Call<Repository>, createFork: nat -> Call<Repository>)
    returns (result: Call<Repository>, effects: seq<ForkEffect>)
    ensures (result, effects) == ForkOutcome(repo, lookup, createFork)
  {
    var newRepoName := ForkName(repo);
    effects := [LookUp(newRepoName)];
    match lookup {
      case Returned(existing) =>
        return lookup, effects;
      case Raised(e) =>
        if !IsUnknownObject(e) {
          return lookup, effects;
        }
    }
    var retryCount: nat := 0;
    var lastException: Option<Exception> := None;
    while retryCount < MaxForkAttempts
      invariant retryCount <= MaxForkAttempts
      invariant forall i :: 0 <= i < retryCount ==> Retryable(createFork(i))
      invariant effects == [LookUp(newRepoName)] + FailedAttempts(repo, newRepoName, retryCount)
      invariant retryCount > 0 ==> lastException == Some(createFork(retryCount - 1).exc)
    {
      var outcome := createFork(retryCount);
      effects := effects + [CreateFork(repo, newRepoName, true)];
      match outcome {
        case Returned(fork) =>
          return outcome, effects;
        case Raised(e) =>
          if !IsGithubStatus(e, 403) {
            return outcome, effects;
          }
      }
      retryCount := retryCount + 1;
      effects := effects + [Sleep(retryCount)];
      lastException := Some(outcome.exc);
    }
    result := Raised(lastException.value);
  }

  /** The number of `create_fork` calls among some effects. */
  function CreateCount(effects: seq<ForkEffect>): nat
  {
    if effects == [] then 0
    else CreateCount(effects[..|effects| - 1]) + (if effects[|effects| - 1].CreateFork? then 1 else 0)
  }

  /** The sleep durations among some effects, in order. */
  function Sleeps(effects: seq<ForkEffect>): seq<nat>
  {
    if effects == [] then []
    else Sleeps(effects[..|effects| - 1]) + (if effects[|effects| - 1].Sleep? then [effects[|effects| - 1].seconds] else [])
  }

  lemma {:induction false} CreateCountAppend(a: seq<ForkEffect>, b: seq<ForkEffect>)
    ensures CreateCount(a + b) == CreateCount(a) + CreateCount(b)
    decreases |b|
  {
    if b != [] {
      assert (a + b)[..|a + b| - 1] == a + b[..|b| - 1];
      CreateCountAppend(a, b[..|b| - 1]);
    } else {
      assert a + b == a;
    }
  }

  lemma {:induction false} SleepsAppend(a: seq<ForkEffect>, b: seq<ForkEffect>)
    ensures Sleeps(a + b) == Sleeps(a) + Sleeps(b)
    decreases |b|
  {
    if b != [] {
      assert (a + b)[..|a + b| - 1] == a + b[..|b| - 1];
      SleepsAppend(a, b[..|b| - 1]);
    } else {
      assert a + b == a;
    }
  }

  lemma {:induction false} SingleEffect(e: ForkEffect)
    ensures CreateCount([e]) == (if e.CreateFork? then 1 else 0)
    ensures Sleeps([e]) == (if e.Sleep? then [e.seconds] else [])
  {
    assert [e][..0] == [];
  }

  /** `n` failed attempts make `n` calls, each for the derived name with
      `default_branch_only=True`, and sleep 1, 2, ..., `n` seconds. */
  lemma {:induction false} FailedAttemptsShape(source: Repository, name: string, n: nat)
    ensures CreateCount(FailedAttempts(source, name, n)) == n
    ensures Sleeps(FailedAttempts(source, name, n)) == seq(n, i => i + 1)
    ensures forall e :: e in FailedAttempts(source, name, n) && e.CreateFork? ==>
              e == CreateFork(source, name, true)
  {
    if n > 0 {
      FailedAttemptsShape(source, name, n - 1);
      var prev := FailedAttempts(source, name, n - 1);
      var step := [CreateFork(source, name, true), Sleep(n)];
      CreateCountAppend(prev, step);
      SleepsAppend(prev, step);
      SingleEffect(CreateFork(source, name, true));
      SingleEffect(Sleep(n));
      CreateCountAppend([CreateFork(source, name, true)], [Sleep(n)]);
      SleepsAppend([CreateFork(source, name, true)], [Sleep(n)]);
    }
  }

  /** An existing fork is returned as it is: one lookup and nothing else. */
  lemma {:induction false} ExistingForkReused(org: Organization, repo: Repository, createFork: nat -> Call<Repository>)
    requires ForkName(repo) in org.repos
    ensures ForkOutcome(repo, GetRepo(org, ForkName(repo)), createFork)
         == (Returned(org.repos[ForkName(repo)]), [LookUp(ForkName(repo))])
  {
  }

  /** Only UnknownObjectException from the lookup leads to `create_fork`: any
      other lookup failure is raised with no call made. */
  lemma {:induction false} OnlyUnknownObjectCreates(repo: Repository, lookup: Call<Repository>, createFork: nat -> Call<Repository>)
    ensures var (result, effects) := ForkOutcome(repo, lookup, createFork);
      (CreateCount(effects) > 0 <==> lookup.Raised? && IsUnknownObject(lookup.exc))
      && (lookup.Raised? && !IsUnknownObject(lookup.exc) ==> result == lookup)
  {
    var (result, effects) := ForkOutcome(repo, lookup, createFork);
    var name := ForkName(repo);
    SingleEffect(LookUp(name));
    if lookup.Raised? && IsUnknownObject(lookup.exc) {
      var n := RetryableRun(createFork, 0);
      FailedAttemptsShape(repo, name, n);
      CreateCountAppend([LookUp(name)], FailedAttempts(repo, name, n));
      if n < MaxForkAttempts {
        CreateCountAppend([LookUp(name)] + FailedAttempts(repo, name, n), [CreateFork(repo, name, true)]);
      }
    }
  }

  /** The retry policy: at most five `create_fork` calls, each for the derived
      name with `default_branch_only=True`; the k-th 403 failure sleeps k
      seconds; a failure other than 403 is raised at once with no sleep after
      it; after five 403 failures the last one is raised. */
  lemma {:induction false} ForkRetryPolicy(repo: Repository, createFork: nat -> Call<Repository>)
    ensures var (result, effects) := ForkOutcome(repo, Raised(UnknownObject), createFork);
      var n := RetryableRun(createFork, 0);
      && CreateCount(effects) == (if n < MaxForkAttempts then n + 1 else MaxForkAttempts)
      && CreateCount(effects) <= MaxForkAttempts
      && (forall e :: e in effects && e.CreateFork? ==> e == CreateFork(repo, ForkName(repo), true))
      && Sleeps(effects) == seq(n, i => i + 1)
      && (n < MaxForkAttempts ==> result == createFork(n) && !Retryable(result))
      && (n == MaxForkAttempts ==> result == createFork(MaxForkAttempts - 1) && Retryable(result))
  {
    var name := ForkName(repo);
    var n := RetryableRun(createFork, 0);
    var (result, effects) := ForkOutcome(repo, Raised(UnknownObject), createFork);
    FailedAttemptsShape(repo, name, n);
    var failed := FailedAttempts(repo, name, n);
    CreateCountAppend([LookUp(name)], failed);
    SleepsAppend([LookUp(name)], failed);
    SingleEffect(LookUp(name));
    if n < MaxForkAttempts {
      var last := [CreateFork(repo, name, true)];
      CreateCountAppend([LookUp(name)] + failed, last);
      SleepsAppend([LookUp(name)] + failed, last);
      SingleEffect(CreateFork(repo, name, true));
      assert effects == [LookUp(name)] + failed + last;
    }
  }

  /** Forking twice: once the first call has created the fork and the
      organisation lists it under the derived name, the second call finds it
      and creates nothing. */
  lemma {:induction false} ForkIsIdempotent(org: Organization, repo: Repository,
                         first: nat -> Call<Repository>, second: nat -> Call<Repository>)
    requires ForkName(repo) !in org.repos
    ensures var (created, _) := ForkOutcome(repo, GetRepo(org, ForkName(repo)), first);
      created.Returned? ==>
        var after := org.(repos := org.repos[ForkName(repo) := created.value]);
        var (again, effects) := ForkOutcome(repo, GetRepo(after, ForkName(repo)), second);
        again == created && CreateCount(effects) == 0
  {
    var name := ForkName(repo);
    var (created, _) := ForkOutcome(repo, GetRepo(org, name), first);
    if created.Returned? {
      SingleEffect(LookUp(name));
    }
  }

  // ---------------------------------------------------------------------
  // configure_repository_after_fork
  // ---------------------------------------------------------------------

  /** The requests `configure_repository_after_fork` issues, in order. */
  datatype ConfigEffect =
    | EditRepository(hasIssues: bool, hasProjects: bool, hasWiki: bool)  // repo.edit(...)
    | ListWorkflows                                                       // repo.get_workflows()
    | Put(path: string)                                                   // requestJsonAndCheck("PUT", path)

  /** The one edit the function makes: issues, projects and wiki off. */
  const FeaturesOff := EditRepository(false, false, false)

  /** Workflows whose lower-cased name mentions "security" or "codeql" stay enabled. */
  predicate KeptEnabled(w: Workflow)
  {
    Contains(Lower(w.name), "security") || Contains(Lower(w.name), "codeql")
  }

  /** A workflow whose state mentions "disabled" is left alone. */
  predicate AlreadyDisabled(w: Workflow)
  {
    Contains(w.state, "disabled")
  }

  /** The workflows that get a disable request. */
  predicate ToDisable(w: Workflow)
  {
    !KeptEnabled(w) && !AlreadyDisabled(w)
  }

  /** The REST path that disables workflow `w` of `repo`. */
  function DisablePath(repo: Repository, w: Workflow): string
  {
    "/repos/" + repo.ownerLogin + "/" + repo.name + "/actions/workflows/" + NatToString(w.id) + "/disable"
  }

  // The request sequence below is written for any choice `selected` of the
  // workflows that get a disable request; the function itself uses
  // `ToDisable`. The properties proved for every `selected` then hold for
  // `ToDisable` in particular, without the proofs depending on how the
  // names and states are matched.

  /** The disable requests for a list of workflows, in list order. */
  function DisableRequests(repo: Repository, ws: seq<Workflow>, selected: Workflow -> bool): seq<ConfigEffect>
  {
    if ws == [] then []
    else DisableRequests(repo, ws[..|ws| - 1], selected)
         + (if selected(ws[|ws| - 1]) then [Put(DisablePath(repo, ws[|ws| - 1]))] else [])
  }

  /** A disable request that ends the function: it failed other than with 403. */
  predicate FatalDisable(outcome: Option<Exception>)
  {
    outcome.Some? && !IsGithubStatus(outcome.value, 403)
  }

  /** The index of the first workflow whose disable request is fatal, or the
      number of workflows when there is none. */
  function FirstFatal(ws: seq<Workflow>, selected: Workflow -> bool, disable: Workflow -> Option<Exception>, k: nat): (n: nat)
    requires k <= |ws|
    ensures k <= n <= |ws|
    ensures forall i :: k <= i < n ==> !(selected(ws[i]) && FatalDisable(disable(ws[i])))
    ensures n < |ws| ==> selected(ws[n]) && FatalDisable(disable(ws[n]))
    decreases |ws| - k
  {
    if k == |ws| || (selected(ws[k]) && FatalDisable(disable(ws[k]))) then k
    else FirstFatal(ws, selected, disable, k + 1)
  }

  /** What `configure_repository_after_fork(repo)` raises (if anything) and
      the requests it issues, given the outcome of the edit, of listing the
      workflows and of each disable request. */
  function ConfigureOutcome(repo: Repository, edit: Option<Exception>, listing: Call<seq<Workflow>>,
                            disable: Workflow -> Option<Exception>, selected: Workflow -> bool)
    : (Option<Exception>, seq<ConfigEffect>)
  {
    if edit.Some? then (edit, [FeaturesOff])
    else if listing.Raised? then (Some(listing.exc), [FeaturesOff, ListWorkflows])
    else
      var ws := listing.value;
      var n := FirstFatal(ws, selected, disable, 0);
      if n < |ws| then (disable(ws[n]), [FeaturesOff, ListWorkflows] + DisableRequests(repo, ws[..n + 1], selected))
      else (None, [FeaturesOff, ListWorkflows] + DisableRequests(repo, ws, selected))
  }

  /** `configure_repository_after_fork`: `edit` is what `repo.edit` raised,
      `listing` what `repo.get_workflows()` gave, `disable(w)` what the PUT
      for `w` raised. */
  method ConfigureRepositoryAfterFork(repo: Repository, edit: Option<Exception>, listing: Call<seq<Workflow>>,
                                      disable: Workflow -> Option<Exception>)
    returns (raised: Option<Exception>, effects: seq<ConfigEffect>)
    ensures (raised, effects) == ConfigureOutcome(repo, edit, listing, disable, ToDisable)
  {
    effects := [FeaturesOff];
    if edit.Some? {
      return edit, effects;
    }
    effects := effects + [ListWorkflows];
    if listing.Raised? {
      assert effects == [FeaturesOff, ListWorkflows];
      return Some(listing.exc), effects;
    }
    var workflows := listing.value;
    assert edit == None && listing == Returned(workflows);
    for i := 0 to |workflows|
      invariant effects == [FeaturesOff, ListWorkflows] + DisableRequests(repo, workflows[..i], ToDisable)
      invariant forall j :: 0 <= j < i ==> !(ToDisable(workflows[j]) && FatalDisable(disable(workflows[j])))
    {
      var workflow := workflows[i];
      if KeptEnabled(workflow) {
        DisableSkipped(repo, workflows, ToDisable, i);
        continue;
      }
      if AlreadyDisabled(workflow) {
        DisableSkipped(repo, workflows, ToDisable, i);
        continue;
      }
      DisableIssued(repo, workflows, ToDisable, i, effects);
      effects := effects + [Put(DisablePath(repo, workflow))];
      var outcome := disable(workflow);
      if outcome.Some? && !IsGithubStatus(outcome.value, 403) {
        OtherFailureRaised(repo, workflows, ToDisable, disable, i);
        return outcome, effects;
      }
    }
    NoFatalDisable(repo, workflows, ToDisable, disable);
    assert workflows[..|workflows|] == workflows;
    raised := None;
  }

  lemma {:induction false} DisableSkipped(repo: Repository, ws: seq<Workflow>, selected: Workflow -> bool, i: nat)
    requires i < |ws| && !selected(ws[i])
    ensures DisableRequests(repo, ws[..i + 1], selected) == DisableRequests(repo, ws[..i], selected)
  {
    assert ws[..i + 1][..i] == ws[..i];
  }

  lemma {:induction false} DisableIssued(repo: Repository, ws: seq<Workflow>, selected: Workflow -> bool, i: nat,
                                         before: seq<ConfigEffect>)
    requires i < |ws| && selected(ws[i])
    requires before == [FeaturesOff, ListWorkflows] + DisableRequests(repo, ws[..i], selected)
    ensures before + [Put(DisablePath(repo, ws[i]))] == [FeaturesOff, ListWorkflows] + DisableRequests(repo, ws[..i + 1], selected)
  {
    assert ws[..i + 1][..i] == ws[..i];
  }

  lemma {:induction false} NoFatalDisable(repo: Repository, ws: seq<Workflow>, selected: Workflow -> bool,
                                          disable: Workflow -> Option<Exception>)
    requires forall j :: 0 <= j < |ws| ==> !(selected(ws[j]) && FatalDisable(disable(ws[j])))
    ensures ConfigureOutcome(repo, None, Returned(ws), disable, selected)
         == (None, [FeaturesOff, ListWorkflows] + DisableRequests(repo, ws, selected))
  {
  }

  lemma {:induction false} FirstFatalAt(ws: seq<Workflow>, selected: Workflow -> bool,
                                        disable: Workflow -> Option<Exception>, i: nat)
    requires i < |ws| && selected(ws[i]) && FatalDisable(disable(ws[i]))
    requires forall j :: 0 <= j < i ==> !(selected(ws[j]) && FatalDisable(disable(ws[j])))
    ensures FirstFatal(ws, selected, disable, 0) == i
  {
  }

  /** The workflows, in order, that `DisableRequests` targets. */
  function Targets(ws: seq<Workflow>, selected: Workflow -> bool): seq<Workflow>
  {
    if ws == [] then []
    else Targets(ws[..|ws| - 1], selected) + (if selected(ws[|ws| - 1]) then [ws[|ws| - 1]] else [])
  }

  /** Exactly one PUT per selected workflow, in the order of the list. */
  lemma {:induction false} DisableRequestsExact(repo: Repository, ws: seq<Workflow>, selected: Workflow -> bool)
    ensures var targets := Targets(ws, selected);
      DisableRequests(repo, ws, selected) == seq(|targets|, i requires 0 <= i < |targets| => Put(DisablePath(repo, targets[i])))
    decreases |ws|
  {
    if ws != [] {
      DisableRequestsExact(repo, ws[..|ws| - 1], selected);
    }
  }

  /** A workflow is a target exactly when it is in the list and selected. */
  lemma {:induction false} TargetsExact(ws: seq<Workflow>, selected: Workflow -> bool)
    ensures forall w :: w in Targets(ws, selected) <==> w in ws && selected(w)
    decreases |ws|
  {
    if ws != [] {
      var init, last := ws[..|ws| - 1], ws[|ws| - 1];
      TargetsExact(init, selected);
      assert ws == init + [last];
      forall w ensures w in Targets(ws, selected) <==> w in ws && selected(w) {
        assert w in ws <==> w in init || w == last;
      }
    }
  }

  lemma {:induction false} DisableRequestsArePuts(repo: Repository, ws: seq<Workflow>, selected: Workflow -> bool)
    ensures forall e :: e in DisableRequests(repo, ws, selected) ==> e.Put?
    decreases |ws|
  {
    if ws != [] {
      DisableRequestsArePuts(repo, ws[..|ws| - 1], selected);
    }
  }

  /** Every disable request names a selected workflow of the list. */
  lemma {:induction false} DisableRequestsTargets(repo: Repository, ws: seq<Workflow>, selected: Workflow -> bool)
    ensures forall e :: e in DisableRequests(repo, ws, selected) ==>
              exists w :: w in ws && selected(w) && e == Put(DisablePath(repo, w))
    decreases |ws|
  {
    if ws != [] {
      var init, last := ws[..|ws| - 1], ws[|ws| - 1];
      DisableRequestsTargets(repo, init, selected);
      forall e | e in DisableRequests(repo, ws, selected)
        ensures exists w :: w in ws && selected(w) && e == Put(DisablePath(repo, w))
      {
        if e in DisableRequests(repo, init, selected) {
          var w :| w in init && selected(w) && e == Put(DisablePath(repo, w));
          assert w in ws;
        } else {
          assert selected(last) && e == Put(DisablePath(repo, last));
        }
      }
    }
  }

  /** No disable request ever names a workflow outside the selection: with
      `ToDisable`, never a kept or an already disabled one. */
  lemma {:induction false} NeverDisablesKept(repo: Repository, edit: Option<Exception>, listing: Call<seq<Workflow>>,
                                             disable: Workflow -> Option<Exception>, selected: Workflow -> bool)
    requires listing.Returned?
    ensures forall e :: e in ConfigureOutcome(repo, edit, listing, disable, selected).1 && e.Put? ==>
              exists w :: w in listing.value && selected(w) && e.path == DisablePath(repo, w)
  {
    if edit.None? {
      NeverDisablesKeptListed(repo, listing.value, disable, selected);
      assert listing == Returned(listing.value);
    }
  }

  /** In particular, `configure_repository_after_fork` never sends a
      disable request for a workflow whose lower-cased name mentions
      "security" or "codeql", nor for one whose state mentions "disabled". */
  lemma {:induction false} KeepsSecurityWorkflows(repo: Repository, edit: Option<Exception>, listing: Call<seq<Workflow>>,
                                                  disable: Workflow -> Option<Exception>)
    requires listing.Returned?
    ensures forall e :: e in ConfigureOutcome(repo, edit, listing, disable, ToDisable).1 && e.Put? ==>
              exists w :: w in listing.value && !KeptEnabled(w) && !AlreadyDisabled(w) && e.path == DisablePath(repo, w)
  {
    NeverDisablesKept(repo, edit, listing, disable, ToDisable);
  }

  lemma {:induction false} NeverDisablesKeptListed(repo: Repository, ws: seq<Workflow>,
                                                   disable: Workflow -> Option<Exception>, selected: Workflow -> bool)
    ensures forall e :: e in ConfigureOutcome(repo, None, Returned(ws), disable, selected).1 && e.Put? ==>
              exists w :: w in ws && selected(w) && e.path == DisablePath(repo, w)
  {
    var n := FirstFatal(ws, selected, disable, 0);
    var done := if n < |ws| then ws[..n + 1] else ws;
    var requests := DisableRequests(repo, done, selected);
    assert ConfigureOutcome(repo, None, Returned(ws), disable, selected).1 == [FeaturesOff, ListWorkflows] + requests;
    DisableRequestsTargets(repo, done, selected);
    forall e | e in [FeaturesOff, ListWorkflows] + requests && e.Put?
      ensures exists w :: w in ws && selected(w) && e.path == DisablePath(repo, w)
    {
      assert e in requests;
      var w :| w in done && selected(w) && e == Put(DisablePath(repo, w));
      assert w in ws;
    }
  }

  /** The repository edit is always the first request and is made exactly once. */
  lemma {:induction false} EditAlwaysFirst(repo: Repository, edit: Option<Exception>, listing: Call<seq<Workflow>>,
                                           disable: Workflow -> Option<Exception>, selected: Workflow -> bool)
    ensures var effects := ConfigureOutcome(repo, edit, listing, disable, selected).1;
      |effects| > 0 && effects[0] == FeaturesOff && FeaturesOff !in effects[1..]
  {
    if edit.None? && listing.Returned? {
      EditFirstWhenListed(repo, listing.value, disable, selected);
      assert listing == Returned(listing.value);
    }
  }

  lemma {:induction false} EditFirstWhenListed(repo: Repository, ws: seq<Workflow>,
                                               disable: Workflow -> Option<Exception>, selected: Workflow -> bool)
    ensures var effects := ConfigureOutcome(repo, None, Returned(ws), disable, selected).1;
      |effects| > 0 && effects[0] == FeaturesOff && FeaturesOff !in effects[1..]
  {
    var n := FirstFatal(ws, selected, disable, 0);
    var done := if n < |ws| then ws[..n + 1] else ws;
    var later := [ListWorkflows] + DisableRequests(repo, done, selected);
    assert ConfigureOutcome(repo, None, Returned(ws), disable, selected).1 == [FeaturesOff] + later;
    assert FeaturesOff !in later by {
      DisableRequestsArePuts(repo, done, selected);
    }
    assert ([FeaturesOff] + later)[1..] == later;
  }

  /** A 403 on a disable request is swallowed: when every failure is a 403,
      nothing is raised and every selected workflow gets its request. */
  lemma {:induction false} ForbiddenIsSwallowed(repo: Repository, ws: seq<Workflow>,
                                                disable: Workflow -> Option<Exception>, selected: Workflow -> bool)
    requires forall w :: w in ws && selected(w) ==> disable(w).None? || IsGithubStatus(disable(w).value, 403)
    ensures ConfigureOutcome(repo, None, Returned(ws), disable, selected)
         == (None, [FeaturesOff, ListWorkflows] + DisableRequests(repo, ws, selected))
  {
    forall i | 0 <= i < |ws| ensures !(selected(ws[i]) && FatalDisable(disable(ws[i]))) {
      assert ws[i] in ws;
    }
    NoFatalDisable(repo, ws, selected, disable);
  }

  /** Any other failure of a disable request is raised, and no workflow after
      it is examined. */
  lemma {:induction false} OtherFailureRaised(repo: Repository, ws: seq<Workflow>, selected: Workflow -> bool,
                                              disable: Workflow -> Option<Exception>, i: nat)
    requires i < |ws| && selected(ws[i]) && FatalDisable(disable(ws[i]))
    requires forall j :: 0 <= j < i ==> !(selected(ws[j]) && FatalDisable(disable(ws[j])))
    ensures ConfigureOutcome(repo, None, Returned(ws), disable, selected)
         == (disable(ws[i]), [FeaturesOff, ListWorkflows] + DisableRequests(repo, ws[..i + 1], selected))
  {
    FirstFatalAt(ws, selected, disable, i);
  }

  // ---------------------------------------------------------------------
  // cli: the loop over the catalog
  // ---------------------------------------------------------------------

  /** A catalog repository is processed only with at least 100 stars, when
      not archived and when not itself a fork. */
  predicate Eligible(r: Repository)
  {
    r.stargazersCount >= 100 && !r.archived && !r.fork
  }

  /** The eligible repositories of a catalog, in catalog order. */
  function EligibleRepos(catalog: seq<Repository>): seq<Repository>
  {
    if catalog == [] then []
    else (if Eligible(catalog[0]) then [catalog[0]] else []) + EligibleRepos(catalog[1..])
  }

  /** The filter keeps exactly the eligible repositories. */
  lemma {:induction false} EligibleReposMembers(catalog: seq<Repository>)
    ensures forall r :: r in EligibleRepos(catalog) <==> r in catalog && Eligible(r)
    decreases |catalog|
  {
    if catalog != [] {
      EligibleReposMembers(catalog[1..]);
      forall r ensures r in catalog <==> r == catalog[0] || r in catalog[1..] {
        assert catalog == [catalog[0]] + catalog[1..];
      }
    }
  }

  /** The filter keeps catalog order: filtering two parts of a catalog and
      joining the results is filtering the whole. */
  lemma {:induction false} EligibleReposAppend(a: seq<Repository>, b: seq<Repository>)
    ensures EligibleRepos(a + b) == EligibleRepos(a) + EligibleRepos(b)
    decreases |a|
  {
    if a != [] {
      assert (a + b)[0] == a[0] && (a + b)[1..] == a[1..] + b;
      EligibleReposAppend(a[1..], b);
    } else {
      assert a + b == b;
    }
  }

  /** What the network and the browser do while one catalog repository is
      processed. */
  datatype Environment = Environment(
    lookup: Call<Repository>,               // org.get_repo(fork name)
    createFork: nat -> Call<Repository>,    // the k-th org.create_fork(...)
    pages: seq<PageObservation>,            // the enable_github_actions iterations
    edit: Option<Exception>,                // repo.edit(...)
    listing: Call<seq<Workflow>>,           // repo.get_workflows()
    disable: Workflow -> Option<Exception>) // the PUT disabling a workflow

  /** The three things done to an eligible repository, in this order. */
  datatype Phase = Forking | EnablingActions | Configuring

  /** A phase started for a catalog repository. */
  datatype Stage = Stage(source: Repository, phase: Phase)

  /** How the loop ends: over the whole catalog, with an exception that
      leaves `cli`, or with the Actions page still polling when the
      observations ran out. */
  datatype CliOutcome = Completed | Aborted(exc: Exception) | Stalled

  /** One catalog repository processed: the stages it goes through and, when
      it stops the loop, why. */
  datatype RepoResult = RepoResult(stop: Option<CliOutcome>, stages: seq<Stage>)

  /** The body of the loop for one catalog repository. */
  function ProcessRepo(repo: Repository, e: Environment): RepoResult
  {
    if !Eligible(repo) then RepoResult(None, [])
    else AfterFork(repo, ForkOutcome(repo, e.lookup, e.createFork).0, e)
  }

  /** The rest of the loop body once `fork_repo_to_org` returned or raised. */
  function AfterFork(repo: Repository, forked: Call<Repository>, e: Environment): RepoResult
  {
    if forked.Raised? then RepoResult(Some(Aborted(forked.exc)), [Stage(repo, Forking)])
    else AfterEnable(repo, forked.value, Settle(ActionsUrl(forked.value), e.pages).outcome, e)
  }

  /** The rest of the loop body once `enable_github_actions` ended. */
  function AfterEnable(repo: Repository, fork: Repository, settled: Settled, e: Environment): RepoResult
  {
    var started := [Stage(repo, Forking), Stage(repo, EnablingActions)];
    if settled.Failed? then RepoResult(Some(Aborted(settled.exc)), started)
    else if settled.Unsettled? then RepoResult(Some(Stalled), started)
    else
      var raised := ConfigureOutcome(fork, e.edit, e.listing, e.disable, ToDisable).0;
      RepoResult(if raised.Some? then Some(Aborted(raised.value)) else None,
                 started + [Stage(repo, Configuring)])
  }

  /** The loop over per-repository results from the k-th on: it goes on
      until a repository stops it. */
  function LoopRun(results: seq<RepoResult>, k: nat): (CliOutcome, seq<Stage>)
    requires k <= |results|
    decreases |results| - k
  {
    if k == |results| then (Completed, [])
    else if results[k].stop.Some? then (results[k].stop.value, results[k].stages)
    else
      var (outcome, rest) := LoopRun(results, k + 1);
      (outcome, results[k].stages + rest)
  }

  /** What processing each catalog entry would give. */
  function Results(catalog: seq<Repository>, env: nat -> Environment): (r: seq<RepoResult>)
    ensures |r| == |catalog|
    ensures forall i :: 0 <= i < |catalog| ==> r[i] == ProcessRepo(catalog[i], env(i))
  {
    seq(|catalog|, i requires 0 <= i < |catalog| => ProcessRepo(catalog[i], env(i)))
  }

  /** What `cli()` does with a catalog. */
  function CliRun(catalog: seq<Repository>, env: nat -> Environment): (CliOutcome, seq<Stage>)
  {
    LoopRun(Results(catalog, env), 0)
  }

  /** After the first k results, what the loop has done is what the whole
      run does before the rest of it. */
  predicate LoopPartial(results: seq<RepoResult>, k: nat, stages: seq<Stage>)
  {
    k <= |results|
    && stages + LoopRun(results, k).1 == LoopRun(results, 0).1
    && LoopRun(results, k).0 == LoopRun(results, 0).0
  }

  lemma {:induction false} LoopAdvances(results: seq<RepoResult>, k: nat, stages: seq<Stage>, stages': seq<Stage>)
    requires k < |results| && LoopPartial(results, k, stages)
    requires results[k].stop.None? && stages' == stages + results[k].stages
    ensures LoopPartial(results, k + 1, stages')
  {
    var rest := LoopRun(results, k + 1).1;
    AppendAssociates(stages, results[k].stages, rest);
  }

  lemma {:induction false} LoopStops(results: seq<RepoResult>, k: nat, stages: seq<Stage>, stages': seq<Stage>)
    requires k < |results| && LoopPartial(results, k, stages)
    requires results[k].stop.Some? && stages' == stages + results[k].stages
    ensures (results[k].stop.value, stages') == LoopRun(results, 0)
  {
  }

  /** The body of the `cli()` loop for one catalog repository: the skips,
      then fork, enable Actions and configure, stopping at the first step
      that raises (or polls for ever). */
  method ProcessRepository(gh: GitHubSelenium, repository: Repository, e: Environment)
    returns (stop: Option<CliOutcome>, stages: seq<Stage>)
    requires gh.Valid() && gh.d != null && gh.d.running
    modifies gh.d
    ensures gh.d.running
    ensures RepoResult(stop, stages) == ProcessRepo(repository, e)
  {
    stages := [];
    if repository.stargazersCount < 100 {
      return None, stages;
    }
    if repository.archived {
      return None, stages;
    }
    if repository.fork {
      return None, stages;
    }
    stages := stages + [Stage(repository, Forking)];
    var newRepository, _ := ForkRepoToOrg(repository, e.lookup, e.createFork);
    if newRepository.Raised? {
      return Some(Aborted(newRepository.exc)), stages;
    }
    stages := stages + [Stage(repository, EnablingActions)];
    var settled, _ := gh.EnableGithubActions(newRepository.value, e.pages);
    if settled.Failed? {
      return Some(Aborted(settled.exc)), stages;
    }
    if settled.Unsettled? {
      return Some(Stalled), stages;
    }
    stages := stages + [Stage(repository, Configuring)];
    var raised, _ := ConfigureRepositoryAfterFork(newRepository.value, e.edit, e.listing, e.disable);
    if raised.Some? {
      return Some(Aborted(raised.value)), stages;
    }
    stop := None;
  }

  /** `cli()`: a browser session around the loop over the catalog, which
      skips ineligible repositories and forks, enables Actions on and
      configures the others, one after the other. `env(k)` is what happens
      while the k-th catalog entry is processed. Returns how the loop ended,
      the stages started, and the browser wrapper, whose driver has been quit
      whatever the outcome. */
  method RunCli(catalog: seq<Repository>, env: nat -> Environment)
    returns (outcome: CliOutcome, stages: seq<Stage>, gh: GitHubSelenium)
    ensures (outcome, stages) == CliRun(catalog, env)
    ensures gh.d != null && !gh.d.running
    ensures |gh.d.events| > 0 && gh.d.events[|gh.d.events| - 1] == QuitDriver
  {
    gh := new GitHubSelenium();
    gh.Enter();
    ghost var results := Results(catalog, env);
    outcome, stages := Completed, [];
    var i := 0;
    while i < |catalog|
      invariant fresh(gh) && gh.Valid() && gh.d != null && fresh(gh.d) && gh.d.running
      invariant outcome == Completed
      invariant LoopPartial(results, i, stages)
      decreases |catalog| - i
    {
      var stop, added := ProcessRepository(gh, catalog[i], env(i));
      assert results[i] == RepoResult(stop, added);
      if stop.Some? {
        LoopStops(results, i, stages, stages + added);
        outcome, stages := stop.value, stages + added;
        assert (outcome, stages) == LoopRun(results, 0);
        break;
      }
      LoopAdvances(results, i, stages, stages + added);
      stages := stages + added;
      i := i + 1;
    }
    if i == |catalog| {
      assert LoopRun(results, i) == (Completed, []);
      assert stages + [] == stages;
      assert (outcome, stages) == LoopRun(results, 0);
    }
    assert (outcome, stages) == LoopRun(results, 0);
    var _ := gh.Exit();
  }

  // ---------------------------------------------------------------------
  // Properties of the loop over the catalog
  // ---------------------------------------------------------------------

  /** The three stages of a repository that goes through the whole body. */
  function AllPhases(r: Repository): seq<Stage>
  {
    [Stage(r, Forking), Stage(r, EnablingActions), Stage(r, Configuring)]
  }

  /** Every repository of a list taken through all three stages, in order. */
  function FullStages(rs: seq<Repository>): seq<Stage>
  {
    if rs == [] then [] else AllPhases(rs[0]) + FullStages(rs[1..])
  }

  /** What a repository's result looks like: nothing for an ineligible
      one; otherwise a non-empty prefix of fork, enable, configure, all three
      when it does not stop the loop. */
  predicate Shaped(repo: Repository, res: RepoResult)
  {
    && (!Eligible(repo) ==> res == RepoResult(None, []))
    && (Eligible(repo) ==> |res.stages| > 0 && res.stages <= AllPhases(repo))
    && (Eligible(repo) && res.stop.None? ==> res.stages == AllPhases(repo))
    && res.stop != Some(Completed)
  }

  lemma {:induction false} ProcessRepoShape(repo: Repository, e: Environment)
    ensures Shaped(repo, ProcessRepo(repo, e))
  {
    if Eligible(repo) {
      var forked := ForkOutcome(repo, e.lookup, e.createFork).0;
      if forked.Returned? {
        var settled := Settle(ActionsUrl(forked.value), e.pages).outcome;
        assert ProcessRepo(repo, e) == AfterEnable(repo, forked.value, settled, e);
      }
    }
  }

  /** The loop from the k-th catalog entry, over results of that shape:
      what it starts is a prefix of taking every eligible repository, in
      catalog order, through fork, enable and configure, and all of it when
      the loop completes. */
  lemma {:induction false} LoopStagesPrefix(catalog: seq<Repository>, results: seq<RepoResult>, k: nat)
    requires |results| == |catalog| && k <= |catalog|
    requires forall i :: 0 <= i < |catalog| ==> Shaped(catalog[i], results[i])
    ensures var (outcome, stages) := LoopRun(results, k);
      && stages <= FullStages(EligibleRepos(catalog[k..]))
      && (outcome == Completed ==> stages == FullStages(EligibleRepos(catalog[k..])))
    decreases |catalog| - k
  {
    if k < |catalog| {
      var r, res := catalog[k], results[k];
      assert Shaped(r, res);
      LoopStagesPrefix(catalog, results, k + 1);
      assert catalog[k..][1..] == catalog[k + 1..];
      var rest := FullStages(EligibleRepos(catalog[k + 1..]));
      if Eligible(r) {
        assert EligibleRepos(catalog[k..]) == [r] + EligibleRepos(catalog[k + 1..]);
        assert FullStages(EligibleRepos(catalog[k..])) == AllPhases(r) + rest;
        if res.stop.None? {
          var (outcome, after) := LoopRun(results, k + 1);
          assert LoopRun(results, k).1 == AllPhases(r) + after;
        }
      } else {
        assert EligibleRepos(catalog[k..]) == EligibleRepos(catalog[k + 1..]);
        assert [] + LoopRun(results, k + 1).1 == LoopRun(results, k + 1).1;
      }
    } else {
      assert catalog[k..] == [];
    }
  }

  /** `cli()` never forks a repository with fewer than 100 stars, an
      archived one or a fork; the others are forked, enabled and configured
      one after the other in catalog order, and every one of them when no
      step raises. */
  lemma {:induction false} CliProcessesEligibleInOrder(catalog: seq<Repository>, env: nat -> Environment)
    ensures var (outcome, stages) := CliRun(catalog, env);
      && stages <= FullStages(EligibleRepos(catalog))
      && (outcome == Completed ==> stages == FullStages(EligibleRepos(catalog)))
      && (forall s :: s in stages ==> s.source in catalog && Eligible(s.source))
  {
    var results := Results(catalog, env);
    forall i | 0 <= i < |catalog| ensures Shaped(catalog[i], results[i]) {
      ProcessRepoShape(catalog[i], env(i));
    }
    LoopStagesPrefix(catalog, results, 0);
    assert catalog[0..] == catalog;
    var stages := CliRun(catalog, env).1;
    EligibleReposMembers(catalog);
    FullStagesSources(EligibleRepos(catalog));
    forall s | s in stages ensures s.source in catalog && Eligible(s.source) {
      var i :| 0 <= i < |stages| && stages[i] == s;
      assert s in FullStages(EligibleRepos(catalog));
    }
  }

  /** Every stage of `FullStages(rs)` is about a repository of `rs`. */
  lemma {:induction false} FullStagesSources(rs: seq<Repository>)
    ensures forall s :: s in FullStages(rs) ==> s.source in rs
    decreases |rs|
  {
    if rs != [] {
      FullStagesSources(rs[1..]);
      forall s | s in FullStages(rs) ensures s.source in rs {
        if s in FullStages(rs[1..]) {
          assert s.source in rs[1..];
        }
      }
    }
  }
}
