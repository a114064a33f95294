/** What migration 009 lists: the tenant-scoped tables and the composite foreign keys between them, in
  * the migration's order, with the columns that this and the neighbouring migrations name. */
module TenantInventory {
  datatype Table =
    | AccessPolicies | AccessPolicyBindings | AccessPolicyStatements | AgentMemory | Attachments
    | BillingState | BillingStateAudit | Conversations | DocumentChunks | DocumentParticipants | DocumentProjects
    | DocumentQueries | Documents | EmailSendLog | ExperienceRuns | ExperienceSteps | Experiences | KnowledgeBases
    | LlmUsage | McpServerConnections | MessageAttachments | Messages
    | ModelConfigurationKbPrompts | ModelConfigurationKnowledgeBases | ModelConfigurations
    | PasswordResetToken | PluginExecutions | PluginFeeds | PluginStorage | PluginSubscriptions
    | PromptAssignments | Prompts | ProviderCredentials | ProviderIdentities | SystemSettings | UserGroupMemberships
    | UserGroups | UserPreferences | Users
    | Tenants

  /** DisplayName and ItemKey are the columns `name` and `key`. */
  datatype Column =
    | AttachmentId | ConversationId | CreatedBy | DocumentId | ExperienceId | GrantedBy | GroupId | Id
    | KnowledgeBaseId | MessageId | ModelConfigurationId | OwnerId | PolicyId | PromptId | ScheduleId
    | SourceChunkId | UserId
    | OwnerUserId | ParentVersionId | PreviousRunId
    | TenantId | CreatedAt | Scope | PluginName | Namespace | ItemKey | DisplayName | Slug
    | TokenHash | EmailVerificationTokenHash | StripeCustomerId | Email

  /** _TENANT_SCOPED_TABLES. */
  const TENANT_SCOPED_TABLES: seq<Table> :=
    [Table.AccessPolicies, Table.AccessPolicyBindings, Table.AccessPolicyStatements, Table.AgentMemory,
     Table.Attachments, Table.BillingState, Table.BillingStateAudit, Table.Conversations, Table.DocumentChunks,
     Table.DocumentParticipants, Table.DocumentProjects, Table.DocumentQueries, Table.Documents,
     Table.EmailSendLog, Table.ExperienceRuns, Table.ExperienceSteps, Table.Experiences, Table.KnowledgeBases,
     Table.LlmUsage, Table.McpServerConnections, Table.MessageAttachments, Table.Messages,
     Table.ModelConfigurationKbPrompts, Table.ModelConfigurationKnowledgeBases, Table.ModelConfigurations,
     Table.PasswordResetToken, Table.PluginExecutions, Table.PluginFeeds, Table.PluginStorage,
     Table.PluginSubscriptions, Table.PromptAssignments, Table.Prompts, Table.ProviderCredentials,
     Table.ProviderIdentities, Table.SystemSettings, Table.UserGroupMemberships, Table.UserGroups,
     Table.UserPreferences, Table.Users]

  /** A child column that refers, within its tenant, to a parent column. */
  datatype Fk = Fk(child: Table, childColumn: Column, parent: Table, parentColumn: Column)

  const FK_COUNT: nat := 46

  function FkAt(i: nat): Fk
    requires i < FK_COUNT
  {
    match i
    case 0 => Fk(Table.AccessPolicies, Column.CreatedBy, Table.Users, Column.Id)
    case 1 => Fk(Table.AccessPolicyBindings, Column.PolicyId, Table.AccessPolicies, Column.Id)
    case 2 => Fk(Table.AccessPolicyStatements, Column.PolicyId, Table.AccessPolicies, Column.Id)
    case 3 => Fk(Table.AgentMemory, Column.UserId, Table.Users, Column.Id)
    case 4 => Fk(Table.Attachments, Column.ConversationId, Table.Conversations, Column.Id)
    case 5 => Fk(Table.Attachments, Column.UserId, Table.Users, Column.Id)
    case 6 => Fk(Table.Conversations, Column.ModelConfigurationId, Table.ModelConfigurations, Column.Id)
    case 7 => Fk(Table.DocumentChunks, Column.DocumentId, Table.Documents, Column.Id)
    case 8 => Fk(Table.DocumentChunks, Column.KnowledgeBaseId, Table.KnowledgeBases, Column.Id)
    case 9 => Fk(Table.DocumentParticipants, Column.DocumentId, Table.Documents, Column.Id)
    case 10 => Fk(Table.DocumentParticipants, Column.KnowledgeBaseId, Table.KnowledgeBases, Column.Id)
    case 11 => Fk(Table.DocumentProjects, Column.DocumentId, Table.Documents, Column.Id)
    case 12 => Fk(Table.DocumentProjects, Column.KnowledgeBaseId, Table.KnowledgeBases, Column.Id)
    case 13 => Fk(Table.DocumentQueries, Column.DocumentId, Table.Documents, Column.Id)
    case 14 => Fk(Table.DocumentQueries, Column.KnowledgeBaseId, Table.KnowledgeBases, Column.Id)
    case 15 => Fk(Table.DocumentQueries, Column.SourceChunkId, Table.DocumentChunks, Column.Id)
    case 16 => Fk(Table.Documents, Column.KnowledgeBaseId, Table.KnowledgeBases, Column.Id)
    case 17 => Fk(Table.ExperienceRuns, Column.ExperienceId, Table.Experiences, Column.Id)
    case 18 => Fk(Table.ExperienceRuns, Column.UserId, Table.Users, Column.Id)
    case 19 => Fk(Table.ExperienceSteps, Column.ExperienceId, Table.Experiences, Column.Id)
    case 20 => Fk(Table.ExperienceSteps, Column.KnowledgeBaseId, Table.KnowledgeBases, Column.Id)
    case 21 => Fk(Table.Experiences, Column.CreatedBy, Table.Users, Column.Id)
    case 22 => Fk(Table.Experiences, Column.ModelConfigurationId, Table.ModelConfigurations, Column.Id)
    case 23 => Fk(Table.Experiences, Column.PromptId, Table.Prompts, Column.Id)
    case 24 => Fk(Table.KnowledgeBases, Column.OwnerId, Table.Users, Column.Id)
    case 25 => Fk(Table.MessageAttachments, Column.AttachmentId, Table.Attachments, Column.Id)
    case 26 => Fk(Table.MessageAttachments, Column.MessageId, Table.Messages, Column.Id)
    case 27 => Fk(Table.Messages, Column.ConversationId, Table.Conversations, Column.Id)
    case 28 => Fk(Table.ModelConfigurationKbPrompts, Column.KnowledgeBaseId, Table.KnowledgeBases, Column.Id)
    case 29 => Fk(Table.ModelConfigurationKbPrompts, Column.ModelConfigurationId, Table.ModelConfigurations, Column.Id)
    case 30 => Fk(Table.ModelConfigurationKbPrompts, Column.PromptId, Table.Prompts, Column.Id)
    case 31 => Fk(Table.ModelConfigurationKnowledgeBases, Column.KnowledgeBaseId, Table.KnowledgeBases, Column.Id)
    case 32 => Fk(Table.ModelConfigurationKnowledgeBases, Column.ModelConfigurationId, Table.ModelConfigurations, Column.Id)
    case 33 => Fk(Table.ModelConfigurations, Column.PromptId, Table.Prompts, Column.Id)
    case 34 => Fk(Table.PasswordResetToken, Column.UserId, Table.Users, Column.Id)
    case 35 => Fk(Table.PluginExecutions, Column.ScheduleId, Table.PluginFeeds, Column.Id)
    case 36 => Fk(Table.PluginStorage, Column.UserId, Table.Users, Column.Id)
    case 37 => Fk(Table.PluginSubscriptions, Column.UserId, Table.Users, Column.Id)
    case 38 => Fk(Table.PromptAssignments, Column.PromptId, Table.Prompts, Column.Id)
    case 39 => Fk(Table.ProviderCredentials, Column.UserId, Table.Users, Column.Id)
    case 40 => Fk(Table.ProviderIdentities, Column.UserId, Table.Users, Column.Id)
    case 41 => Fk(Table.UserGroupMemberships, Column.GrantedBy, Table.Users, Column.Id)
    case 42 => Fk(Table.UserGroupMemberships, Column.GroupId, Table.UserGroups, Column.Id)
    case 43 => Fk(Table.UserGroupMemberships, Column.UserId, Table.Users, Column.Id)
    case 44 => Fk(Table.UserGroups, Column.CreatedBy, Table.Users, Column.Id)
    case _ => Fk(Table.UserPreferences, Column.UserId, Table.Users, Column.Id)
  }

  const COMPOSITE_FKS: seq<Fk> := seq(FK_COUNT, i requires 0 <= i < FK_COUNT => FkAt(i))

  function TableRank(t: Table): nat {
    match t
    case AccessPolicies => 0
    case AccessPolicyBindings => 1
    case AccessPolicyStatements => 2
    case AgentMemory => 3
    case Attachments => 4
    case BillingState => 5
    case BillingStateAudit => 6
    case Conversations => 7
    case DocumentChunks => 8
    case DocumentParticipants => 9
    case DocumentProjects => 10
    case DocumentQueries => 11
    case Documents => 12
    case EmailSendLog => 13
    case ExperienceRuns => 14
    case ExperienceSteps => 15
    case Experiences => 16
    case KnowledgeBases => 17
    case LlmUsage => 18
    case McpServerConnections => 19
    case MessageAttachments => 20
    case Messages => 21
    case ModelConfigurationKbPrompts => 22
    case ModelConfigurationKnowledgeBases => 23
    case ModelConfigurations => 24
    case PasswordResetToken => 25
    case PluginExecutions => 26
    case PluginFeeds => 27
    case PluginStorage => 28
    case PluginSubscriptions => 29
    case PromptAssignments => 30
    case Prompts => 31
    case ProviderCredentials => 32
    case ProviderIdentities => 33
    case SystemSettings => 34
    case UserGroupMemberships => 35
    case UserGroups => 36
    case UserPreferences => 37
    case Users => 38
    case Tenants => 39
  }

  function ColumnRank(c: Column): (r: nat)
    ensures r < 100
  {
    match c
    case AttachmentId => 0
    case ConversationId => 1
    case CreatedBy => 2
    case DocumentId => 3
    case ExperienceId => 4
    case GrantedBy => 5
    case GroupId => 6
    case Id => 7
    case KnowledgeBaseId => 8
    case MessageId => 9
    case ModelConfigurationId => 10
    case OwnerId => 11
    case PolicyId => 12
    case PromptId => 13
    case ScheduleId => 14
    case SourceChunkId => 15
    case UserId => 16
    case OwnerUserId => 17
    case ParentVersionId => 18
    case PreviousRunId => 19
    case _ => 20
  }

  function Rank(fk: Fk): nat {
    100 * TableRank(fk.child) + ColumnRank(fk.childColumn)
  }

  lemma SortedFrom0(i: nat)
    requires 0 <= i < 12
    ensures Rank(FkAt(i)) < Rank(FkAt(i + 1))
  {
  }

  lemma SortedFrom12(i: nat)
    requires 12 <= i < 24
    ensures Rank(FkAt(i)) < Rank(FkAt(i + 1))
  {
  }

  lemma SortedFrom24(i: nat)
    requires 24 <= i < 30
    ensures Rank(FkAt(i)) < Rank(FkAt(i + 1))
  {
  }

  lemma SortedFrom30(i: nat)
    requires 30 <= i < 36
    ensures Rank(FkAt(i)) < Rank(FkAt(i + 1))
  {
  }

  lemma SortedFrom36(i: nat)
    requires 36 <= i < 41
    ensures Rank(FkAt(i)) < Rank(FkAt(i + 1))
  {
  }

  lemma SortedFrom41(i: nat)
    requires 41 <= i < 45
    ensures Rank(FkAt(i)) < Rank(FkAt(i + 1))
  {
  }

  /** The list is sorted by child and column, without repetition. */
  lemma Sorted(i: nat)
    requires i + 1 < FK_COUNT
    ensures Rank(FkAt(i)) < Rank(FkAt(i + 1))
  {
    hide FkAt, Rank;
    if i < 12 { SortedFrom0(i); }
    else if i < 24 { SortedFrom12(i); }
    else if i < 30 { SortedFrom24(i); }
    else if i < 36 { SortedFrom30(i); }
    else if i < 41 { SortedFrom36(i); }
    else { SortedFrom41(i); }
  }

  lemma {:induction false} SortedFar(i: nat, j: nat)
    requires i < j < FK_COUNT
    ensures Rank(FkAt(i)) < Rank(FkAt(j))
    decreases j
  {
    hide FkAt, Rank;
    Sorted(j - 1);
    if i < j - 1 { SortedFar(i, j - 1); }
  }

  /** Every parent column is `id`, no child column is. */
  lemma IdsOnly(i: nat)
    requires i < FK_COUNT
    ensures FkAt(i).parentColumn == Id && FkAt(i).childColumn != Id
  {
  }

  /** The tables that some composite key refers to. */
  predicate IsParent(t: Table) {
    t in {Table.AccessPolicies, Table.Attachments, Table.Conversations, Table.DocumentChunks, Table.Documents,
          Table.Experiences, Table.KnowledgeBases, Table.Messages, Table.ModelConfigurations, Table.PluginFeeds,
          Table.Prompts, Table.UserGroups, Table.Users}
  }

  lemma ParentsListed(i: nat)
    requires i < FK_COUNT
    ensures IsParent(FkAt(i).parent)
  {
  }

  /** A key that refers to the given parent. */
  function KeyInto(t: Table): nat
    requires IsParent(t)
  {
    match t
    case AccessPolicies => 1
    case Attachments => 25
    case Conversations => 4
    case DocumentChunks => 15
    case Documents => 7
    case Experiences => 17
    case KnowledgeBases => 8
    case Messages => 26
    case ModelConfigurations => 6
    case PluginFeeds => 35
    case Prompts => 23
    case UserGroups => 42
    case _ => 0
  }

  lemma ParentsReferred(t: Table)
    requires IsParent(t)
    ensures KeyInto(t) < FK_COUNT && FkAt(KeyInto(t)).parent == t
  {
  }

  /** The columns of the older keys that no composite key stands beside. */
  predicate IsUnlisted(t: Table, c: Column) {
    || (t == Table.PluginExecutions && c == Column.UserId)
    || (t == Table.PluginFeeds && c == Column.OwnerUserId)
    || (t == Table.LlmUsage && c == Column.UserId)
    || (t == Table.Experiences && c == Column.ParentVersionId)
    || (t == Table.ExperienceRuns && c == Column.PreviousRunId)
  }

  lemma UnlistedIsNotListed(i: nat)
    requires i < FK_COUNT
    ensures !IsUnlisted(FkAt(i).child, FkAt(i).childColumn)
  {
  }
}
