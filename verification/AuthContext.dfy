/** Verified account bindings and the exact context resolved for one target
    (auth_context.rs, and the pin rule of registry/auth_port.rs). */
module AuthContext {
  import opened Wrappers

  datatype AccountKind = User | Organization

  /** One revision of an Auth profile. */
  datatype Ref = Ref(profile: string, revision: int)

  /** A Fleet's GitHub target. Names are ASCII. */
  datatype Target = OrganizationTarget(owner: string) | RepositoryTarget(owner: string, repository: string)

  datatype Binding = Binding(accountId: int, accountKind: AccountKind, login: string, installationId: int, validatedAt: int)

  datatype Context = Context(
    profile: string,
    revision: int,
    host: string,
    appId: string,
    accountId: int,
    accountKind: AccountKind,
    login: string,
    installationId: int,
    target: Target,
    organizationId: Option<int>,
    repositoryId: Option<int>,
    repositoryOwnerId: Option<int>)

  const GITHUB_HOST := "github.com"

  // ---- ASCII case ----

  function FoldChar(c: char): char {
    if 'A' <= c <= 'Z' then (c as int + 32) as char else c
  }

  /** to_ascii_lowercase; equal folds are eq_ignore_ascii_case. */
  function Fold(s: string): (r: string)
    ensures |r| == |s|
  {
    seq(|s|, i requires 0 <= i < |s| => FoldChar(s[i]))
  }

  // ---- Identity and pins ----

  predicate HasCompleteIdentity(c: Context) {
    && c.accountId > 0 && c.installationId > 0 && c.host == GITHUB_HOST
    && match c.target
       case OrganizationTarget(_) =>
         c.accountKind.Organization? && c.organizationId == Some(c.accountId) &&
         c.repositoryId.None? && c.repositoryOwnerId.None?
       case RepositoryTarget(_, _) =>
         c.repositoryId.Some? && c.repositoryId.value > 0 && c.repositoryOwnerId == Some(c.accountId) &&
         c.organizationId.None?
  }

  /** A pin, once there, is neither changed nor erased. */
  predicate PinKept(pinned: Option<int>, verified: Option<int>) {
    pinned.None? || pinned == verified
  }

  predicate PinsAgree(observed: Context, verified: Context) {
    && PinKept(observed.organizationId, verified.organizationId)
    && PinKept(observed.repositoryId, verified.repositoryId)
    && PinKept(observed.repositoryOwnerId, verified.repositoryOwnerId)
    && observed.accountId == verified.accountId
    && observed.accountKind == verified.accountKind
    && (observed.installationId == verified.installationId ||
        verified.profile != observed.profile || verified.revision > observed.revision)
  }

  predicate SameRoute(a: Context, b: Context) {
    && a.profile == b.profile && a.revision == b.revision && a.host == b.host && a.appId == b.appId
    && a.target == b.target && a.accountId == b.accountId && a.accountKind == b.accountKind
    && a.installationId == b.installationId
  }

  /** c is complete and keeps every route field and pin of what was desired. */
  predicate Completes(c: Context, desired: Context) {
    HasCompleteIdentity(c) && SameRoute(c, desired) && PinsAgree(desired, c)
  }

  function RefOf(c: Context): Ref {
    Ref(c.profile, c.revision)
  }

  predicate MatchesRefAndBinding(c: Context, profile: string, revision: int, b: Binding) {
    && c.profile == profile && c.revision == revision
    && c.accountId == b.accountId && c.accountKind == b.accountKind && c.installationId == b.installationId
  }

  /** A complete context is final: only itself completes it, apart from the
      display login. */
  lemma CompletionIsFinal(c: Context, e: Context)
    requires HasCompleteIdentity(c)
    ensures Completes(e, c) <==> e == c.(login := e.login)
  {
  }

  /** Completing in two steps is completing. */
  lemma CompletesTransitive(a: Context, b: Context, c: Context)
    requires Completes(b, a) && Completes(c, b)
    ensures Completes(c, a) && c == b.(login := c.login)
  {
    CompletionIsFinal(b, c);
  }

  /** Completion stays on the binding the desired context was routed by. */
  lemma CompletionKeepsBinding(c: Context, desired: Context, profile: string, revision: int, b: Binding)
    requires Completes(c, desired)
    ensures MatchesRefAndBinding(c, profile, revision, b) <==> MatchesRefAndBinding(desired, profile, revision, b)
  {
  }
}
