/** The browser side of the tool (`github_selenium.py`): a context manager that
    opens a Chrome driver on entry and quits it on exit, and the polling loop
    that presses "enable Actions" on a fresh fork. The pages the browser lands
    on and the answers of `get_contents` are observations given to the loop,
    one per iteration. */
module GithubSelenium {
  import opened Outcomes
  import opened PyStrings
  import opened PyStringFacts
  import opened SeqFacts
  import opened PyGithub

  /** The base of every page the wrapper opens. */
  const BaseUrl: string := "https://github.com/"

  /** What is done with the browser, in order. */
  datatype BrowserEvent =
    | Navigate(url: string)  // driver.get(url)
    | ClickEnable            // click on the "enable Actions" form input
    | QuitDriver             // driver.quit()

  /** A `webdriver.Chrome`: whether it is running, the page it shows and what
      was done with it. */
  class Driver {
    var running: bool
    var currentUrl: string
    var events: seq<BrowserEvent>

    constructor ()
      ensures running && currentUrl == "data:," && events == []
    {
      running := true;
      currentUrl := "data:,";
      events := [];
    }

    /** `driver.get(url)`; the browser ends up on `landed`, which is `url`
        unless GitHub redirected. */
    method Get(url: string, landed: string)
      requires running
      modifies this
      ensures running && currentUrl == landed && events == old(events) + [Navigate(url)]
    {
      currentUrl := landed;
      events := events + [Navigate(url)];
    }

    /** A click on the "enable Actions" control. */
    method Click()
      requires running
      modifies this
      ensures running && currentUrl == old(currentUrl) && events == old(events) + [ClickEnable]
    {
      events := events + [ClickEnable];
    }

    /** `driver.quit()`. */
    method Quit()
      modifies this
      ensures !running && currentUrl == old(currentUrl) && events == old(events) + [QuitDriver]
    {
      running := false;
      events := events + [QuitDriver];
    }
  }

  /** `_is_fork_complete`: the outcome of `get_contents("")` classified. A
      listing means the fork is complete; a GithubException whose message
      mentions an empty repository or "Not Found" means it is not yet; any
      other GithubException is raised again, and one without a message fails
      on the `message` lookup. */
  function IsForkComplete(root: Call<Contents>): Call<bool>
  {
    match root
    case Returned(_) => Returned(true)
    case Raised(exc) =>
      if !exc.Github? then Raised(exc)
      else if exc.error.message.None? then Raised(KeyError("message"))
      else if Contains(exc.error.message.value, "This repository is empty")
              || Contains(exc.error.message.value, "Not Found") then Returned(false)
      else Raised(exc)
  }

  /** `_has_github_actions`: the outcome of `get_contents(".github/workflows")`
      classified. A 404 or no contents mean there is no workflows directory;
      any other contents, an empty listing included, mean there is one; any
      other failure propagates. */
  function HasGithubActions(workflows: Call<Option<Contents>>): Call<bool>
  {
    match workflows
    case Raised(exc) => if IsUnknownObject(exc) then Returned(false) else Raised(exc)
    case Returned(contents) => Returned(contents.Some?)
  }

  /** `_is_fork_complete` returns true exactly when the listing succeeds,
      false exactly for a GithubException whose message mentions an empty
      repository or "Not Found", and otherwise raises. */
  lemma {:induction false} IsForkCompleteClassifies(root: Call<Contents>)
    ensures IsForkComplete(root) == Returned(true) <==> root.Returned?
    ensures IsForkComplete(root) == Returned(false) <==>
      root.Raised? && root.exc.Github? && root.exc.error.message.Some?
      && (Contains(root.exc.error.message.value, "This repository is empty")
          || Contains(root.exc.error.message.value, "Not Found"))
    ensures IsForkComplete(root).Raised? && root.Raised? && root.exc.Github? && root.exc.error.message.Some? ==> IsForkComplete(root).exc == root.exc
    ensures root.Raised? && root.exc.Github? && root.exc.error.message.None? ==> IsForkComplete(root) == Raised(KeyError("message"))
    ensures root.Raised? && !root.exc.Github? ==> IsForkComplete(root) == Raised(root.exc)
  {
  }

  /** `_has_github_actions` returns false on a 404 or no contents, true on
      any contents, and lets every other failure through. */
  lemma {:induction false} HasGithubActionsClassifies(workflows: Call<Option<Contents>>)
    ensures HasGithubActions(workflows) == Returned(true) <==> workflows.Returned? && workflows.value.Some?
    ensures HasGithubActions(workflows) == Returned(false) <==>
      (workflows.Returned? && workflows.value.None?) || (workflows.Raised? && IsUnknownObject(workflows.exc))
    ensures HasGithubActions(workflows).Raised? <==> workflows.Raised? && !IsUnknownObject(workflows.exc)
    ensures HasGithubActions(workflows).Raised? ==> HasGithubActions(workflows).exc == workflows.exc
  {
  }

  /** What one iteration of the loop finds: the page the browser landed on,
      whether the "enable Actions" control is there, and what `get_contents`
      answers for the root and for the workflows directory. */
  datatype PageObservation = PageObservation(
    landedUrl: string,
    enableControl: bool,
    rootContents: Call<Contents>,
    workflowsContents: Call<Option<Contents>>)

  /** How `enable_github_actions` ends. */
  datatype Settled =
    | NoWorkflowsDirectory    // the first `break`: nothing to enable
    | AlreadyEnabled          // the second `break`: the page is not the "/new" one
    | Failed(exc: Exception)  // a classifier raised
    | Unsettled               // the observations ran out while the loop still polled

  /** Whether an iteration loops again or ends the loop. */
  datatype Next = Poll | Finish(outcome: Settled)

  /** One iteration: what it decides, whether it clicked, and the
      `get_contents` paths it asked for, in order. */
  datatype Step = Step(next: Next, clicked: bool, probes: seq<string>)

  /** The body of the `while retry` loop after the navigation. */
  function Examine(obs: PageObservation): (r: Step)
    ensures r.next.Finish? ==> r.next.outcome != Unsettled
  {
    if obs.enableControl then Step(Poll, true, [])
    else
      var complete := IsForkComplete(obs.rootContents);
      if complete.Raised? then Step(Finish(Failed(complete.exc)), false, [""])
      else if !complete.value then Step(Poll, false, [""])
      else
        var hasActions := HasGithubActions(obs.workflowsContents);
        if hasActions.Raised? then Step(Finish(Failed(hasActions.exc)), false, ["", ".github/workflows"])
        else if !hasActions.value then Step(Finish(NoWorkflowsDirectory), false, ["", ".github/workflows"])
        else if EndsWith(obs.landedUrl, "/new") then Step(Poll, false, ["", ".github/workflows"])
        else Step(Finish(AlreadyEnabled), false, ["", ".github/workflows"])
  }

  /** What a whole run of the loop does with the browser and with the API. */
  datatype Run = Run(outcome: Settled, events: seq<BrowserEvent>, probes: seq<string>)

  /** The browser events of one iteration that opened `url`. */
  function IterationEvents(url: string, step: Step): seq<BrowserEvent>
  {
    [Navigate(url)] + (if step.clicked then [ClickEnable] else [])
  }

  /** The loop over a sequence of observations, one per iteration, every
      iteration opening `url` first. */
  function Settle(url: string, pages: seq<PageObservation>): (r: Run)
    decreases |pages|
  {
    if pages == [] then Run(Unsettled, [], [])
    else
      var step := Examine(pages[0]);
      if step.next.Finish? then Run(step.next.outcome, IterationEvents(url, step), step.probes)
      else
        var rest := Settle(url, pages[1..]);
        Run(rest.outcome, IterationEvents(url, step) + rest.events, step.probes + rest.probes)
  }

  /** The page of the Actions tab of a repository. */
  function ActionsUrl(repo: Repository): string
  {
    BaseUrl + repo.fullName + "/actions"
  }

  /** A `GitHubSelenium`: the driver `_d` (none before the context is
      entered) and the base URL. */
  class GitHubSelenium {
    var d: Driver?
    var baseUrl: string

    /** Once a driver exists, the base URL has been set with it. */
    predicate Valid()
      reads this
    {
      d != null ==> baseUrl == BaseUrl
    }

    /** `GitHubSelenium()`: no driver yet. */
    constructor ()
      ensures Valid() && d == null
    {
      d := null;
      baseUrl := "";
    }

    /** `__enter__`: a new running driver and the GitHub base URL. */
    method Enter()
      modifies this
      ensures Valid() && d != null && fresh(d) && d.running && d.events == [] && baseUrl == BaseUrl
    {
      d := new Driver();
      baseUrl := BaseUrl;
    }

    /** `__exit__`: quits the driver opened on entry; without one, looking
        up `_d` fails. */
    method Exit() returns (raised: Option<Exception>)
      requires Valid()
      modifies this, d
      ensures Valid() && d == old(d)
      ensures old(d) == null ==> raised == Some(AttributeError)
      ensures old(d) != null ==> raised == None && !d.running && d.events == old(d.events) + [QuitDriver]
    {
      if d == null {
        return Some(AttributeError);
      }
      d.Quit();
      raised := None;
    }

    /** `enable_github_actions(repo)`: `pages[k]` is what the k-th iteration
        observes; the loop itself has no bound, so when the observations run
        out it stops as `Unsettled`. Returns how the loop ended and the
        `get_contents` paths requested. */
    method EnableGithubActions(repo: Repository, pages: seq<PageObservation>)
      returns (outcome: Settled, probes: seq<string>)
      requires Valid() && d != null && d.running
      modifies d
      ensures d.running
      ensures var run := Settle(ActionsUrl(repo), pages);
        outcome == run.outcome && probes == run.probes && d.events == old(d.events) + run.events
    {
      var url := baseUrl + repo.fullName + "/actions";
      probes := [];
      var k := 0;
      assert pages[k..] == pages;
      while k < |pages|
        invariant d.running
        invariant PartialRun(url, pages, k, old(d.events), d.events, probes)
        decreases |pages| - k
      {
        var page := pages[k];
        ghost var probesBefore, eventsBefore := probes, d.events;
        d.Get(url, page.landedUrl);
        if page.enableControl {
          d.Click();
          assert d.events == eventsBefore + IterationEvents(url, Step(Poll, true, []));
          PollAdvances(url, pages, k, old(d.events), eventsBefore, probesBefore, Step(Poll, true, []), d.events, probes);
          k := k + 1;
          continue;
        }
        var complete := IsForkComplete(page.rootContents);
        probes := probes + [""];
        if complete.Raised? {
          FinishEnds(url, pages, k, old(d.events), eventsBefore, probesBefore,
                     Step(Finish(Failed(complete.exc)), false, [""]), d.events, probes);
          return Failed(complete.exc), probes;
        }
        if !complete.value {
          PollAdvances(url, pages, k, old(d.events), eventsBefore, probesBefore, Step(Poll, false, [""]), d.events, probes);
          k := k + 1;
          continue;
        }
        var hasActions := HasGithubActions(page.workflowsContents);
        probes := probes + [".github/workflows"];
        if hasActions.Raised? {
          FinishEnds(url, pages, k, old(d.events), eventsBefore, probesBefore,
                     Step(Finish(Failed(hasActions.exc)), false, ["", ".github/workflows"]), d.events, probes);
          return Failed(hasActions.exc), probes;
        }
        if !hasActions.value {
          FinishEnds(url, pages, k, old(d.events), eventsBefore, probesBefore,
                     Step(Finish(NoWorkflowsDirectory), false, ["", ".github/workflows"]), d.events, probes);
          return NoWorkflowsDirectory, probes;
        }
        if EndsWith(d.currentUrl, "/new") {
          PollAdvances(url, pages, k, old(d.events), eventsBefore, probesBefore,
                       Step(Poll, false, ["", ".github/workflows"]), d.events, probes);
          k := k + 1;
          continue;
        }
        FinishEnds(url, pages, k, old(d.events), eventsBefore, probesBefore,
                   Step(Finish(AlreadyEnabled), false, ["", ".github/workflows"]), d.events, probes);
        return AlreadyEnabled, probes;
      }
      assert pages[k..] == [];
      outcome := Unsettled;
    }
  }

  /** The run from the k-th observation on: its first iteration, then (when
      that one polls) the run from the next observation. */
  lemma {:induction false} SettleAt(url: string, pages: seq<PageObservation>, k: nat)
    requires k < |pages|
    ensures var step := Examine(pages[k]);
      Settle(url, pages[k..])
      == if step.next.Finish? then Run(step.next.outcome, IterationEvents(url, step), step.probes)
         else
           var rest := Settle(url, pages[k + 1..]);
           Run(rest.outcome, IterationEvents(url, step) + rest.events, step.probes + rest.probes)
  {
    assert pages[k..][1..] == pages[k + 1..];
  }

  /** After `k` polling iterations the loop has done with the browser and
      the API what the whole run does before the rest of it. */
  predicate PartialRun(url: string, pages: seq<PageObservation>, k: nat,
                       events0: seq<BrowserEvent>, events: seq<BrowserEvent>, probes: seq<string>)
  {
    k <= |pages|
    && var rest, all := Settle(url, pages[k..]), Settle(url, pages);
    && events + rest.events == events0 + all.events
    && probes + rest.probes == all.probes
    && rest.outcome == all.outcome
  }

  /** An iteration that polls moves the run on by one observation. */
  lemma {:induction false} PollAdvances(url: string, pages: seq<PageObservation>, k: nat,
                     events0: seq<BrowserEvent>, events: seq<BrowserEvent>, probes: seq<string>, step: Step,
                     events': seq<BrowserEvent>, probes': seq<string>)
    requires k < |pages| && PartialRun(url, pages, k, events0, events, probes)
    requires Examine(pages[k]) == step && step.next == Poll
    requires events' == events + IterationEvents(url, step) && probes' == probes + step.probes
    ensures PartialRun(url, pages, k + 1, events0, events', probes')
  {
    var rest := Settle(url, pages[k + 1..]);
    var iteration := IterationEvents(url, step);
    assert Settle(url, pages[k..]) == Run(rest.outcome, iteration + rest.events, step.probes + rest.probes) by {
      SettleAt(url, pages, k);
    }
    AppendAssociates(events, iteration, rest.events);
    AppendAssociates(probes, step.probes, rest.probes);
  }

  /** An iteration that finishes completes the run. */
  lemma {:induction false} FinishEnds(url: string, pages: seq<PageObservation>, k: nat,
                   events0: seq<BrowserEvent>, events: seq<BrowserEvent>, probes: seq<string>, step: Step,
                   events': seq<BrowserEvent>, probes': seq<string>)
    requires k < |pages| && PartialRun(url, pages, k, events0, events, probes)
    requires Examine(pages[k]) == step && step.next.Finish?
    requires events' == events + IterationEvents(url, step) && probes' == probes + step.probes
    ensures var all := Settle(url, pages);
      step.next.outcome == all.outcome && probes' == all.probes && events' == events0 + all.events
  {
    SettleAt(url, pages, k);
  }

  // ---------------------------------------------------------------------
  // Properties of the loop
  // ---------------------------------------------------------------------

  /** A successful click never ends the loop, and asks the API nothing. */
  lemma {:induction false} ClickKeepsPolling(obs: PageObservation)
    requires obs.enableControl
    ensures Examine(obs) == Step(Poll, true, [])
  {
  }

  /** Without the control, the fork is checked first; an incomplete fork
      polls again whatever the workflows directory and the URL are. */
  lemma {:induction false} IncompleteForkPolls(obs: PageObservation, workflows: Call<Option<Contents>>, landed: string)
    requires !obs.enableControl && IsForkComplete(obs.rootContents) == Returned(false)
    ensures Examine(obs) == Step(Poll, false, [""])
    ensures Examine(obs.(workflowsContents := workflows, landedUrl := landed)) == Examine(obs)
  {
  }

  /** The loop ends exactly through the two `break`s or a raised exception:
      a missing workflows directory, or a complete fork whose Actions page is
      not the "/new" one. */
  lemma {:induction false} ExamineEnds(obs: PageObservation)
    ensures Examine(obs).next == Finish(NoWorkflowsDirectory) <==>
      !obs.enableControl && IsForkComplete(obs.rootContents) == Returned(true)
      && HasGithubActions(obs.workflowsContents) == Returned(false)
    ensures Examine(obs).next == Finish(AlreadyEnabled) <==>
      !obs.enableControl && IsForkComplete(obs.rootContents) == Returned(true)
      && HasGithubActions(obs.workflowsContents) == Returned(true) && !EndsWith(obs.landedUrl, "/new")
    ensures Examine(obs).next == Poll <==>
      obs.enableControl || IsForkComplete(obs.rootContents) == Returned(false)
      || (IsForkComplete(obs.rootContents) == Returned(true)
          && HasGithubActions(obs.workflowsContents) == Returned(true) && EndsWith(obs.landedUrl, "/new"))
  {
  }

  /** Every iteration opens the same page first: the events of a run are
      whole iterations, each a navigation to `url` optionally followed by a
      click. */
  lemma {:induction false} EveryIterationNavigates(url: string, pages: seq<PageObservation>)
    ensures forall e :: e in Settle(url, pages).events ==> e == Navigate(url) || e == ClickEnable
    ensures |pages| > 0 ==> |Settle(url, pages).events| > 0 && Settle(url, pages).events[0] == Navigate(url)
    decreases |pages|
  {
    if |pages| > 0 && Examine(pages[0]).next.Poll? {
      EveryIterationNavigates(url, pages[1..]);
    }
  }

  /** The number of page loads in a sequence of browser events. */
  function Navigations(events: seq<BrowserEvent>): nat
  {
    if events == [] then 0
    else Navigations(events[..|events| - 1]) + (if events[|events| - 1].Navigate? then 1 else 0)
  }

  lemma {:induction false} NavigationsAppend(a: seq<BrowserEvent>, b: seq<BrowserEvent>)
    ensures Navigations(a + b) == Navigations(a) + Navigations(b)
    decreases |b|
  {
    if b == [] {
      assert a + b == a;
    } else {
      assert (a + b)[..|a + b| - 1] == a + b[..|b| - 1];
      NavigationsAppend(a, b[..|b| - 1]);
    }
  }

  /** While the observations keep the loop polling, it never stops on its
      own: it loads the page once per observation and is still unsettled. */
  lemma {:induction false} PollingNeverStops(url: string, pages: seq<PageObservation>)
    requires forall i :: 0 <= i < |pages| ==> Examine(pages[i]).next == Poll
    ensures Settle(url, pages).outcome == Unsettled
    ensures Navigations(Settle(url, pages).events) == |pages|
    decreases |pages|
  {
    if pages != [] {
      var step := Examine(pages[0]);
      PollingNeverStops(url, pages[1..]);
      NavigationsAppend(IterationEvents(url, step), Settle(url, pages[1..]).events);
      assert Navigations([Navigate(url)]) == 1 by {
        assert [Navigate(url)][..0] == [];
      }
      if step.clicked {
        NavigationsAppend([Navigate(url)], [ClickEnable]);
        assert [ClickEnable][..0] == [];
      }
    }
  }

  /** There is no iteration cap: for every bound there is an environment in
      which the loop is still polling after that many page loads. */
  lemma {:induction false} NoIterationCap(url: string, bound: nat)
    ensures exists pages: seq<PageObservation> ::
      |pages| == bound && Settle(url, pages).outcome == Unsettled
      && Navigations(Settle(url, pages).events) == bound
  {
    var pages := seq(bound, i => PageObservation("", true, Returned([]), Returned(None)));
    PollingNeverStops(url, pages);
  }

  /** The loop stops at the first iteration that decides to: observations
      after it are never consumed, and its decision is the outcome. */
  lemma {:induction false} StopsAtFirstFinish(url: string, pages: seq<PageObservation>, i: nat,
                                              later: seq<PageObservation>)
    requires i < |pages| && Examine(pages[i]).next.Finish?
    requires forall j :: 0 <= j < i ==> Examine(pages[j]).next == Poll
    ensures Settle(url, pages + later) == Settle(url, pages[..i + 1])
    ensures Settle(url, pages).outcome == Examine(pages[i]).next.outcome
    decreases i
  {
    if i > 0 {
      assert (pages + later)[1..] == pages[1..] + later;
      assert pages[..i + 1][1..] == pages[1..][..i];
      StopsAtFirstFinish(url, pages[1..], i - 1, later);
    }
  }
}
