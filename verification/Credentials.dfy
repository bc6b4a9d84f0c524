/**
  Stored credentials and their renewal (`apps/worker/src/credentials.ts`,
  `packages/providers/src/credential-refresh.ts`). Instants are milliseconds. The cipher is
  abstract: a sealed value opens to what was sealed, for the account it was sealed for only.
 */
module Credentials {
  import opened Wrappers

  const REFRESH_AHEAD_MS := 7 * 24 * 60 * 60 * 1000

  datatype Account = Account(organizationId: string, socialAccountId: string)

  datatype Credential = Credential(accessToken: string, refreshToken: Option<string>, expiresAt: Option<int>,
                                   refreshableUntil: Option<int>, scopes: seq<string>, keyVersion: int)

  datatype Issued = Issued(accessToken: string, refreshToken: Option<string>, expiresAt: Option<int>,
                           refreshableUntil: Option<int>, scopes: seq<string>)

  datatype Sealed = Sealed(plain: string, account: Account, keyVersion: int)

  /** The columns of a credential row. */
  datatype Stored = Stored(access: Sealed, refresh: Option<Sealed>, keyVersion: int, expiresAt: Option<int>,
                           refreshableUntil: Option<int>, scopes: seq<string>)

  datatype OpenError = WrongAccount | WrongKey

  function Open(s: Sealed, account: Account, keyVersion: int): Result<string, OpenError> {
    if s.account != account then Err(WrongAccount) else if s.keyVersion != keyVersion then Err(WrongKey) else Ok(s.plain)
  }

  function OpenCredential(row: Stored, account: Account): Result<Credential, OpenError> {
    match Open(row.access, account, row.keyVersion)
    case Err(e) => Err(e)
    case Ok(access) =>
      if row.refresh.None? then Ok(Credential(access, None, row.expiresAt, row.refreshableUntil, row.scopes, row.keyVersion))
      else match Open(row.refresh.value, account, row.keyVersion)
        case Err(e) => Err(e)
        case Ok(refresh) => Ok(Credential(access, Some(refresh), row.expiresAt, row.refreshableUntil, row.scopes, row.keyVersion))
  }

  /** A string property that is present and not empty. */
  function Truthy(s: Option<string>): Option<string> {
    if s == Some("") then None else s
  }

  function SealColumns(issued: Issued, account: Account, keyVersion: int): Stored {
    var refresh := Truthy(issued.refreshToken);
    Stored(Sealed(issued.accessToken, account, keyVersion),
           if refresh.Some? then Some(Sealed(refresh.value, account, keyVersion)) else None,
           keyVersion, issued.expiresAt, issued.refreshableUntil, issued.scopes)
  }

  function RefreshIsDue(c: Credential, now: int): bool {
    c.expiresAt.Some? && c.expiresAt.value - now <= REFRESH_AHEAD_MS
  }

  /** Seven days before expiry. */
  lemma DueAWeekAhead(c: Credential, now: int)
    ensures RefreshIsDue(c, now) <==> c.expiresAt.Some? && c.expiresAt.value - now <= 604_800_000
  {
  }

  function Either<T>(a: Option<T>, b: Option<T>): Option<T> {
    if a.Some? then a else b
  }

  /** What to store after a refresh: what came back, and the previous refresh token and window where none did. */
  function MergeRefreshed(previous: Credential, issued: Issued): Issued {
    Issued(issued.accessToken, Truthy(Either(issued.refreshToken, previous.refreshToken)), issued.expiresAt,
           Either(issued.refreshableUntil, previous.refreshableUntil),
           if |issued.scopes| > 0 then issued.scopes else previous.scopes)
  }

  datatype Outcome = Refreshed(issued: Issued) | StillValid | RequiresReconnect | Raised

  datatype Attempt = Unchanged | Renewed(merged: Issued, credential: Credential) | Reconnect | Failed

  function WithKey(i: Issued, keyVersion: int): Credential {
    Credential(i.accessToken, i.refreshToken, i.expiresAt, i.refreshableUntil, i.scopes, keyVersion)
  }

  function AttemptRefresh(c: Credential, outcome: Outcome): Attempt {
    match outcome
    case StillValid => Unchanged
    case RequiresReconnect => Reconnect
    case Raised => Failed
    case Refreshed(issued) =>
      var merged := MergeRefreshed(c, issued);
      Renewed(merged, WithKey(merged, c.keyVersion))
  }

  /** A row opens exactly for the account and the key version that every part of it was sealed for, and to what was sealed. */
  lemma OpensExactly(row: Stored, account: Account)
    ensures OpenCredential(row, account).Ok? <==>
      && row.access.account == account && row.access.keyVersion == row.keyVersion
      && (row.refresh.Some? ==> row.refresh.value.account == account && row.refresh.value.keyVersion == row.keyVersion)
    ensures OpenCredential(row, account).Ok? ==>
      var c := OpenCredential(row, account).value;
      && c.accessToken == row.access.plain && (c.refreshToken.Some? <==> row.refresh.Some?)
      && (row.refresh.Some? ==> c.refreshToken == Some(row.refresh.value.plain))
      && c.expiresAt == row.expiresAt && c.refreshableUntil == row.refreshableUntil && c.scopes == row.scopes
  {
  }

  /** An attempt renews only by what was issued; a rejection asks for a person, and anything raised leaves things as they are. */
  lemma AttemptsAre(c: Credential, outcome: Outcome)
    ensures AttemptRefresh(c, outcome).Renewed? <==> outcome.Refreshed?
    ensures AttemptRefresh(c, outcome).Reconnect? <==> outcome.RequiresReconnect?
    ensures AttemptRefresh(c, outcome).Failed? <==> outcome.Raised?
    ensures AttemptRefresh(c, outcome).Unchanged? <==> outcome.StillValid?
  {
  }

  /** The credential handed on after a renewal is the one the stored row opens to, and to no other account. */
  lemma RenewedRowOpens(c: Credential, issued: Issued, account: Account, keyVersion: int, other: Account)
    ensures
      var attempt := AttemptRefresh(c, Refreshed(issued));
      var row := SealColumns(attempt.merged, account, keyVersion);
      && OpenCredential(row, account) == Ok(attempt.credential.(keyVersion := keyVersion))
      && (other != account ==> OpenCredential(row, other) == Err(WrongAccount))
  {
  }

  /** A credential after a run of renewals. */
  function AfterRenewals(c: Credential, issues: seq<Issued>): Credential
    decreases |issues|
  {
    if issues == [] then c
    else WithKey(MergeRefreshed(AfterRenewals(c, issues[..|issues| - 1]), issues[|issues| - 1]), c.keyVersion)
  }

  /** Renewals from `i` on gave nothing of this kind. */
  predicate NoTokenFrom(issues: seq<Issued>, i: nat) {
    forall j :: i <= j < |issues| ==> issues[j].refreshToken.None?
  }

  predicate NoWindowFrom(issues: seq<Issued>, i: nat) {
    forall j :: i <= j < |issues| ==> issues[j].refreshableUntil.None?
  }

  predicate NoScopesFrom(issues: seq<Issued>, i: nat) {
    forall j :: i <= j < |issues| ==> issues[j].scopes == []
  }

  /** Over any run of renewals the refresh token, the window and the scopes held are the last ones given, and the first ones if none were. */
  lemma {:induction false} RenewalsForgetNothing(c: Credential, issues: seq<Issued>, i: nat)
    requires i < |issues|
    ensures
      var r := AfterRenewals(c, issues);
      && (issues[i].refreshToken.Some? && NoTokenFrom(issues, i + 1) ==> r.refreshToken == Truthy(issues[i].refreshToken))
      && (NoTokenFrom(issues, 0) ==> r.refreshToken == Truthy(c.refreshToken))
      && (issues[i].refreshableUntil.Some? && NoWindowFrom(issues, i + 1) ==> r.refreshableUntil == issues[i].refreshableUntil)
      && (NoWindowFrom(issues, 0) ==> r.refreshableUntil == c.refreshableUntil)
      && (issues[i].scopes != [] && NoScopesFrom(issues, i + 1) ==> r.scopes == issues[i].scopes)
      && (NoScopesFrom(issues, 0) ==> r.scopes == c.scopes)
      && r.accessToken == issues[|issues| - 1].accessToken && r.expiresAt == issues[|issues| - 1].expiresAt
    decreases |issues|
  {
    var rest := issues[..|issues| - 1];
    if i < |rest| {
      RenewalsForgetNothing(c, rest, i);
    } else if rest != [] {
      RenewalsForgetNothing(c, rest, 0);
    }
  }
}
