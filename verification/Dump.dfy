/** The rows of a backup archive, and the foreign keys of the database they go back into. */
module Dump {
  import opened Prelude

  datatype Table =
    | InstallationState | Users | Tags | AllowedDomains | DeadLetterJobs | OutboxJobs | ScheduledJobRuns
    | Directories | Notifications | Uploads | CasStagingClaims | Collections
    | Materials | DirectoryTags | DirectoryLikes | DirectoryFavourites
    | PullRequests | MaterialTags | MaterialLikes | MaterialFavourites | CollectionItems | FeaturedItems
    | Flags | ViewHistory | DownloadAudit | Comments
    | MaterialVersions | Annotations | PrFileClaims | PrComments

  type Id = string

  /** A row of a table, as a foreign key names it. */
  datatype Ref = Ref(table: Table, id: Id)

  /** A row: its primary key, the self-reference restore sorts on, the self-reference it does not
      sort on (`annotations.reply_to_id`), references to other tables, the non-null pull-request
      cross-references, and the remaining columns. */
  datatype Row = Row(id: Id, parent: Option<Id>, replyTo: Option<Id>, refs: set<Ref>,
                     deferred: map<string, Id>, payload: string)

  const TABLE_INSERT_ORDER: seq<Table> := [
    InstallationState, Users, Tags, AllowedDomains, DeadLetterJobs, OutboxJobs, ScheduledJobRuns,
    Directories, Notifications, Uploads, CasStagingClaims, Collections,
    Materials, DirectoryTags, DirectoryLikes, DirectoryFavourites,
    PullRequests, MaterialTags, MaterialLikes, MaterialFavourites, CollectionItems, FeaturedItems,
    Flags, ViewHistory, DownloadAudit, Comments,
    MaterialVersions, Annotations, PrFileClaims, PrComments]

  predicate SelfReferential(t: Table)
  {
    t in {Directories, Materials, Annotations, PrComments}
  }

  /** The tables the models' foreign keys of `t` point at, self-references apart. */
  function Parents(t: Table): set<Table>
  {
    match t
    case Directories | Notifications | CasStagingClaims | Collections | PullRequests | Flags | Comments => {Users}
    case Materials | DirectoryLikes | DirectoryFavourites => {Directories, Users}
    case DirectoryTags => {Directories, Tags}
    case MaterialTags => {Materials, Tags}
    case MaterialLikes | MaterialFavourites | ViewHistory | DownloadAudit => {Materials, Users}
    case CollectionItems => {Collections, Materials, Directories}
    case FeaturedItems => {Materials, Directories, Users}
    case MaterialVersions => {Materials, Users, PullRequests}
    case Annotations => {Materials, MaterialVersions, Users}
    case PrFileClaims => {PullRequests}
    case PrComments => {PullRequests, Users}
    case _ => {}
  }

  /** Where a table stands in the insertion order. */
  function Rank(t: Table): nat
  {
    match t
    case InstallationState => 0 case Users => 1 case Tags => 2 case AllowedDomains => 3
    case DeadLetterJobs => 4 case OutboxJobs => 5 case ScheduledJobRuns => 6
    case Directories => 7 case Notifications => 8 case Uploads => 9 case CasStagingClaims => 10
    case Collections => 11 case Materials => 12 case DirectoryTags => 13 case DirectoryLikes => 14
    case DirectoryFavourites => 15 case PullRequests => 16 case MaterialTags => 17
    case MaterialLikes => 18 case MaterialFavourites => 19 case CollectionItems => 20
    case FeaturedItems => 21 case Flags => 22 case ViewHistory => 23 case DownloadAudit => 24
    case Comments => 25 case MaterialVersions => 26 case Annotations => 27 case PrFileClaims => 28
    case PrComments => 29
  }

  lemma RankLocates(t: Table)
    ensures Rank(t) < |TABLE_INSERT_ORDER| && TABLE_INSERT_ORDER[Rank(t)] == t
  {}

  lemma RankOfEntry(i: nat)
    requires i < |TABLE_INSERT_ORDER|
    ensures Rank(TABLE_INSERT_ORDER[i]) == i
  {
    if i < 10 {
      assert i == 0 || i == 1 || i == 2 || i == 3 || i == 4 || i == 5 || i == 6 || i == 7 || i == 8 || i == 9;
    } else if i < 20 {
      assert i == 10 || i == 11 || i == 12 || i == 13 || i == 14 || i == 15 || i == 16 || i == 17 || i == 18 || i == 19;
    }
  }

  /** Every table comes after the tables its foreign keys point at: no key points forward. */
  lemma OrderRespectsForeignKeys(t: Table, p: Table)
    requires p in Parents(t)
    ensures p in TABLE_INSERT_ORDER[..Rank(t)] && Rank(p) < Rank(t)
  {
    RankLocates(t);
    RankLocates(p);
    assert Rank(p) < Rank(t);
    assert TABLE_INSERT_ORDER[..Rank(t)][Rank(p)] == p;
  }
}
