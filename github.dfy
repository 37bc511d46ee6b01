/** The PyGithub objects the tool reads, as values. Every attribute the code
    looks at is a field; everything the network would fetch lazily is given
    to the operations as an oracle outcome instead. */
module PyGithub {
  import opened Outcomes

  /** A `github.Repository.Repository`: `owner.login`, `name`, `full_name`,
      `stargazers_count`, `archived` and `fork`. */
  datatype Repository = Repository(
    ownerLogin: string,
    name: string,
    fullName: string,
    stargazersCount: int,
    archived: bool,
    fork: bool)

  /** A `github.Organization.Organization`: its login and its repositories by name. */
  datatype Organization = Organization(login: string, repos: map<string, Repository>)

  /** A `github.Workflow.Workflow`: `id`, `name` and `state` ("active",
      "disabled_manually", "disabled_inactivity", ...). */
  datatype Workflow = Workflow(id: nat, name: string, state: string)

  /** What `get_contents` returns: the paths of the entries found. */
  type Contents = seq<string>

  /** The exception PyGithub raises for a 404 answer. */
  const UnknownObject: Exception := Github(GithubError(404, Some("Not Found"), true))

  /** `isinstance(e, UnknownObjectException)`. */
  predicate IsUnknownObject(exc: Exception)
  {
    exc.Github? && exc.error.unknownObject
  }

  /** `org.get_repo(name)` against an organisation whose repositories are known. */
  function GetRepo(org: Organization, name: string): (r: Call<Repository>)
    ensures r.Returned? ==> name in org.repos && r.value == org.repos[name]
    ensures r.Raised? ==> name !in org.repos && IsUnknownObject(r.exc)
  {
    if name in org.repos then Returned(org.repos[name]) else Raised(UnknownObject)
  }
}
