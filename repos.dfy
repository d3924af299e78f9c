/** What the repository commands learn from outside: the GitHub listing of every
    configured organisation, and what `git.Repo` finds at a local path. */
module Repos {

  /** A repository of the GitHub listing. Two organisations may list the same name. */
  datatype RemoteRepo = RemoteRepo(name: string, archived: bool)

  /** `git.Repo(path)`: `InvalidGitRepositoryError`, or a repository and what its
      `is_dirty()` answers. */
  datatype LocalRepo = NotARepository | Repository(dirty: bool)
}
