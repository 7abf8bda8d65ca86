/**
 * One repository as the script sees it (class `Repo` in main.py) and the
 * predicate that decides whether it is reported (`repo_filters`).
 *
 * Instants are integers counting microseconds on the UTC scale of
 * `pushedAt`. The current instant `now` is passed in; the script reads it
 * from the local wall clock instead (see RepoFilterAsWritten).
 */
module Repos {
  import opened Wrappers

  /** Length of one hour in microseconds. */
  const MicrosPerHour: int := 60 * 60 * 1_000_000

  /** Length of one day (`timedelta(days=1)`) in microseconds. */
  const MicrosPerDay: int := 24 * 60 * 60 * 1_000_000

  /** The `templateRepository` object of an API node. */
  datatype TemplateRepository = TemplateRepository(nameWithOwner: string)

  /** A repository node as the API returns it, with `pushedAt` already parsed. */
  datatype Node = Node(nameWithOwner: string, pushedAt: int, templateRepository: Option<TemplateRepository>)

  /** `Repo`: name, time of the last push and the name of the template it was generated from, if any. */
  datatype Repo = Repo(name: string, lastUpdated: int, template: Option<string>)

  /** `Repo.__init__`: a template name exactly when the node has a template repository. */
  function FromNode(node: Node): (r: Repo)
    ensures r.name == node.nameWithOwner && r.lastUpdated == node.pushedAt
    ensures r.template.None? <==> node.templateRepository.None?
    ensures r.template.Some? ==> r.template.value == node.templateRepository.value.nameWithOwner
  {
    var template := if node.templateRepository.Some? then Some(node.templateRepository.value.nameWithOwner) else None;
    Repo(node.nameWithOwner, node.pushedAt, template)
  }

  /** Earliest instant still counted as active with a window of `lastNDays` days. */
  function Cutoff(lastNDays: int, now: int): int
  {
    now - lastNDays * MicrosPerDay
  }

  /**
   * `repo_filters`: kept iff the template is exactly `templateName` and the
   * last push lies no more than `lastNDays` days before `now`.
   */
  predicate RepoFilter(repo: Repo, templateName: string, lastNDays: int, now: int)
  {
    if repo.template != Some(templateName) then false
    else if repo.lastUpdated < Cutoff(lastNDays, now) then false
    else true
  }

  /** The filter as a conjunction: template match and age at most the window. */
  lemma RepoFilterIff(repo: Repo, templateName: string, lastNDays: int, now: int)
    ensures RepoFilter(repo, templateName, lastNDays, now)
        <==> repo.template == Some(templateName) && now - repo.lastUpdated <= lastNDays * MicrosPerDay
  {
  }

  /**
   * The window is inclusive: a matching repo pushed exactly `lastNDays` days
   * before `now` is kept, one pushed a microsecond (or a day) earlier is not.
   */
  lemma RecencyBoundary(repo: Repo, templateName: string, lastNDays: int, now: int)
    requires repo.template == Some(templateName)
    ensures repo.lastUpdated == now - lastNDays * MicrosPerDay ==> RepoFilter(repo, templateName, lastNDays, now)
    ensures repo.lastUpdated == now - lastNDays * MicrosPerDay - 1 ==> !RepoFilter(repo, templateName, lastNDays, now)
    ensures repo.lastUpdated == now - (lastNDays + 1) * MicrosPerDay ==> !RepoFilter(repo, templateName, lastNDays, now)
  {
  }

  /** A node without a template repository is never kept, whatever template is asked for. */
  lemma NoTemplateNeverKept(node: Node, templateName: string, lastNDays: int, now: int)
    requires node.templateRepository.None?
    ensures !RepoFilter(FromNode(node), templateName, lastNDays, now)
  {
  }

  /** Widening the window, or evaluating earlier, never drops a kept repo. */
  lemma RepoFilterMonotone(repo: Repo, templateName: string, lastNDays: int, now: int, wider: int, earlier: int)
    requires RepoFilter(repo, templateName, lastNDays, now)
    requires lastNDays <= wider && earlier <= now
    ensures RepoFilter(repo, templateName, wider, now)
    ensures RepoFilter(repo, templateName, lastNDays, earlier)
  {
  }

  /**
   * `repo_filters` exactly as written: the cutoff comes from the local wall
   * clock (`datetime.today()`), which reads `utcNow + utcOffset`, while
   * `pushedAt` is a UTC time with its zone marker stripped.
   */
  predicate RepoFilterAsWritten(repo: Repo, templateName: string, lastNDays: int, utcNow: int, utcOffset: int)
  {
    RepoFilter(repo, templateName, lastNDays, utcNow + utcOffset)
  }

  /**
   * As written, the effective window is `lastNDays` days minus the local UTC
   * offset: it agrees with the intended filter only on a machine whose
   * clock is at UTC.
   */
  lemma RepoFilterAsWrittenIff(repo: Repo, templateName: string, lastNDays: int, utcNow: int, utcOffset: int)
    ensures RepoFilterAsWritten(repo, templateName, lastNDays, utcNow, utcOffset)
        <==> repo.template == Some(templateName) && utcNow - repo.lastUpdated <= lastNDays * MicrosPerDay - utcOffset
    ensures utcOffset == 0 ==>
      (RepoFilterAsWritten(repo, templateName, lastNDays, utcNow, utcOffset) <==> RepoFilter(repo, templateName, lastNDays, utcNow))
  {
  }

  /**
   * At UTC+2 a repository pushed 27 days and 23 hours ago is dropped from a
   * 28-day window, although the intended filter keeps it.
   */
  lemma LocalClockShiftsWindow(utcNow: int)
    ensures var repo := Repo("a/x", utcNow - 28 * MicrosPerDay + MicrosPerHour, Some("org/tpl"));
      && RepoFilter(repo, "org/tpl", 28, utcNow)
      && !RepoFilterAsWritten(repo, "org/tpl", 28, utcNow, 2 * MicrosPerHour)
  {
  }
}
