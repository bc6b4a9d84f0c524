/**
  Many workers renewing one account whose platform replaces the refresh token on every use
  (`freshenCredential` and `renewUnderLock` of `apps/worker/src/credentials.ts` and of
  `apps/web/src/features/social/service.ts`, with the adapter of
  `packages/providers/src/x/provider.ts`), and a person connecting it again. Each step is atomic:
  the row lock taken or released, a read, a call sent, a call reaching the platform.
 */
module RenewalProtocol {
  import opened Wrappers
  import opened Credentials

  /** How close to expiry the adapter calls out. */
  const REFRESH_WINDOW_MS := 30 * 60 * 1000

  /** What a call to the platform comes to; a lost one was accepted, but its answer never arrived. */
  datatype Reply = Accept(issued: Issued) | Lost(issued: Issued) | Reject | Silence

  /**
    A call on its way: the token it carries, when it was asked for, and what was so then: whether a
    renewal had gone unrecorded, how many tokens had been issued, and the expiry last issued.
   */
  datatype Sent = Sent(token: string, askedAt: int, afterLoss: bool, issues: nat, lastExpiry: Option<Option<int>>)

  datatype Phase =
    | Idle
    | Holding(stale: Credential)
    | Waiting(stale: Credential)
    | Locked(stale: Credential)
    | Reading(stale: Credential, current: Credential)
    | Calling(stale: Credential, current: Credential, sent: Sent)
    | Accepted(stale: Credential, merged: Issued, renewed: Credential)
    | Done(credential: Credential)

  /** A call that reached the platform: whether its token was the current one, whether none had been issued since it was sent, and whether it was accepted. */
  datatype Use = Use(sent: Sent, at: int, wasCurrent: bool, noneSince: bool, accepted: bool)

  /** The platform's current token, and history: those no longer current, how many were issued, and the expiry of the last. */
  datatype Platform = Platform(token: string, spent: set<string>, issues: nat, lastExpiry: Option<Option<int>>)

  /**
    `adrift` are calls whose transaction ended before they reached the platform; `pending` is what a person
    connecting the account again was issued and has not stored yet. History: the calls that arrived, and
    whether some issue has not reached the row.
   */
  datatype State = State(
    row: Stored,
    lock: Option<nat>,
    phases: map<nat, Phase>,
    adrift: seq<Sent>,
    pending: Option<Issued>,
    platform: Platform,
    uses: seq<Use>,
    unrecorded: bool)

  datatype Step =
    | Load(w: nat)
    | Decide(w: nat, now: int)
    | TakeLock(w: nat)
    | Reread(w: nat)
    | Ask(w: nat, now: int)
    | Answer(w: nat, at: int, reply: Reply)
    | Commit(w: nat, keyVersion: int)
    | Abort(w: nat)
    | Land(i: nat, at: int, reply: Reply)
    | Authorize(issued: Issued)
    | StoreIssued(keyVersion: int)

  function PhaseOf(s: State, w: nat): Phase {
    if w in s.phases then s.phases[w] else Idle
  }

  function Enter(s: State, w: nat, p: Phase): State {
    s.(phases := s.phases[w := p])
  }

  function Leave(s: State, w: nat, c: Credential): State {
    Enter(s, w, Done(c)).(lock := None)
  }

  /** Whether the adapter calls the platform: only close to expiry, and only with a refresh token. */
  predicate CallsOut(c: Credential, now: int) {
    c.expiresAt.Some? && c.expiresAt.value - now <= REFRESH_WINDOW_MS && Truthy(c.refreshToken).Some?
  }

  function AdapterOutcome(c: Credential, now: int, reply: Reply): Outcome {
    if c.expiresAt.None? || c.expiresAt.value - now > REFRESH_WINDOW_MS then StillValid
    else if Truthy(c.refreshToken).None? then RequiresReconnect
    else match reply
      case Accept(issued) => Refreshed(issued)
      case Lost(_) => Raised
      case Reject => RequiresReconnect
      case Silence => Raised
  }

  /** Skipping the adapter until a week before expiry skips no renewal: it would have answered that nothing is due. */
  lemma NotDueIsStillValid(c: Credential, now: int, reply: Reply)
    requires !RefreshIsDue(c, now)
    ensures AdapterOutcome(c, now, reply) == StillValid && !CallsOut(c, now)
    ensures AttemptRefresh(c, AdapterOutcome(c, now, reply)) == Unchanged
  {
  }

  predicate Consumes(reply: Reply) {
    reply.Accept? || reply.Lost?
  }

  /** A token never issued before. */
  predicate Fresh(p: Platform, issued: Issued) {
    issued.refreshToken.Some? && issued.refreshToken.value !in p.spent + {p.token, ""}
  }

  /** A platform accepts its current token only, and then issues one it never issued before. */
  predicate Honest(p: Platform, token: string, reply: Reply) {
    Consumes(reply) ==> token == p.token && Fresh(p, reply.issued)
  }

  predicate Enabled(s: State, account: Account, step: Step) {
    match step
    case Load(w) => (PhaseOf(s, w).Idle? || PhaseOf(s, w).Done?) && OpenCredential(s.row, account).Ok?
    case Decide(w, now) => PhaseOf(s, w).Holding?
    case TakeLock(w) => PhaseOf(s, w).Waiting? && s.lock.None?
    case Reread(w) => PhaseOf(s, w).Locked? && OpenCredential(s.row, account).Ok?
    case Ask(w, now) => PhaseOf(s, w).Reading?
    case Answer(w, at, reply) => PhaseOf(s, w).Calling? && Honest(s.platform, PhaseOf(s, w).sent.token, reply)
    case Commit(w, keyVersion) => PhaseOf(s, w).Accepted?
    case Abort(w) => Inside(PhaseOf(s, w))
    case Land(i, at, reply) => i < |s.adrift| && Honest(s.platform, s.adrift[i].token, reply)
    case Authorize(issued) => s.pending.None? && Fresh(s.platform, issued)
    case StoreIssued(keyVersion) => s.pending.Some? && s.lock.None?
  }

  /** The platform issues a token in place of its current one. */
  function Issue(p: Platform, issued: Issued): Platform
    requires issued.refreshToken.Some?
  {
    Platform(issued.refreshToken.value, p.spent + {p.token}, p.issues + 1, Some(issued.expiresAt))
  }

  function UseOf(p: Platform, sent: Sent, at: int, reply: Reply): Use {
    Use(sent, at, sent.token == p.token, sent.issues == p.issues, Consumes(reply))
  }

  function Replied(p: Platform, reply: Reply): Platform
    requires Consumes(reply) ==> reply.issued.refreshToken.Some?
  {
    if Consumes(reply) then Issue(p, reply.issued) else p
  }

  /** The platform's side of one call, and the record of it. */
  function Reached(s: State, sent: Sent, at: int, reply: Reply): State
    requires Consumes(reply) ==> reply.issued.refreshToken.Some?
  {
    s.(uses := s.uses + [UseOf(s.platform, sent, at, reply)], platform := Replied(s.platform, reply))
  }

  function AfterAsk(s: State, w: nat, now: int): State
    requires PhaseOf(s, w).Reading?
  {
    var stale, c := PhaseOf(s, w).stale, PhaseOf(s, w).current;
    if CallsOut(c, now) then
      Enter(s, w, Calling(stale, c, Sent(c.refreshToken.value, now, s.unrecorded, s.platform.issues, s.platform.lastExpiry)))
    else Leave(s, w, c)
  }

  function AfterAnswer(s: State, w: nat, at: int, reply: Reply): State
    requires PhaseOf(s, w).Calling? && Honest(s.platform, PhaseOf(s, w).sent.token, reply)
  {
    var Calling(stale, c, sent) := PhaseOf(s, w);
    var t := Reached(s, sent, at, reply);
    match AttemptRefresh(c, AdapterOutcome(c, sent.askedAt, reply))
    case Renewed(merged, credential) => Enter(t, w, Accepted(stale, merged, credential))
    case _ => Leave(t.(unrecorded := t.unrecorded || Consumes(reply)), w, c)
  }

  function AfterAbort(s: State, w: nat): State
    requires Inside(PhaseOf(s, w))
  {
    var p := PhaseOf(s, w);
    var t := Leave(s, w, p.stale);
    if p.Calling? then t.(adrift := t.adrift + [p.sent])
    else if p.Accepted? then t.(unrecorded := true)
    else t
  }

  function AfterLand(s: State, i: nat, at: int, reply: Reply): State
    requires i < |s.adrift| && Honest(s.platform, s.adrift[i].token, reply)
  {
    var t := Reached(s, s.adrift[i], at, reply);
    t.(adrift := s.adrift[..i] + s.adrift[i + 1..], unrecorded := s.unrecorded || Consumes(reply))
  }

  function Next(s: State, account: Account, step: Step): State
    requires Enabled(s, account, step)
  {
    match step
    case Load(w) => Enter(s, w, Holding(OpenCredential(s.row, account).value))
    case Decide(w, now) =>
      var stale := PhaseOf(s, w).stale;
      Enter(s, w, if RefreshIsDue(stale, now) then Waiting(stale) else Done(stale))
    case TakeLock(w) => Enter(s, w, Locked(PhaseOf(s, w).stale)).(lock := Some(w))
    case Reread(w) => Enter(s, w, Reading(PhaseOf(s, w).stale, OpenCredential(s.row, account).value))
    case Ask(w, now) => AfterAsk(s, w, now)
    case Answer(w, at, reply) => AfterAnswer(s, w, at, reply)
    case Commit(w, keyVersion) =>
      Leave(s.(row := SealColumns(PhaseOf(s, w).merged, account, keyVersion)), w,
            PhaseOf(s, w).renewed.(keyVersion := keyVersion))
    case Abort(w) => AfterAbort(s, w)
    case Land(i, at, reply) => AfterLand(s, i, at, reply)
    case Authorize(issued) => s.(platform := Issue(s.platform, issued), pending := Some(issued), unrecorded := true)
    case StoreIssued(keyVersion) =>
      s.(row := SealColumns(s.pending.value, account, keyVersion), pending := None, unrecorded := false)
  }

  ghost predicate Runs(s: State, account: Account, steps: seq<Step>)
    decreases |steps|
  {
    steps == [] || (Enabled(s, account, steps[0]) && Runs(Next(s, account, steps[0]), account, steps[1..]))
  }

  ghost function After(s: State, account: Account, steps: seq<Step>): State
    requires Runs(s, account, steps)
    decreases |steps|
  {
    if steps == [] then s else After(Next(s, account, steps[0]), account, steps[1..])
  }

  // ---------------------------------------------------------------- the invariant

  predicate Inside(p: Phase) {
    p.Locked? || p.Reading? || p.Calling? || p.Accepted?
  }

  ghost predicate Mutex(s: State) {
    forall w: nat :: Inside(PhaseOf(s, w)) <==> s.lock == Some(w)
  }

  /** The refresh token the row opens to. */
  function RowToken(row: Stored, account: Account): Option<string> {
    match OpenCredential(row, account)
    case Ok(c) => c.refreshToken
    case Err(_) => None
  }

  /** A token is the platform's while every issue has reached the row, and no longer current once one has not. */
  predicate TokenAgrees(p: Platform, unrecorded: bool, token: Option<string>) {
    && token.Some?
    && (!unrecorded ==> token.value == p.token)
    && (unrecorded ==> token.value in p.spent)
  }

  predicate RowAgrees(s: State, account: Account) {
    && TokenAgrees(s.platform, s.unrecorded, RowToken(s.row, account))
    && (!s.unrecorded && s.platform.lastExpiry.Some? ==> s.row.expiresAt == s.platform.lastExpiry.value)
  }

  /** No call on its way carries this token. */
  ghost predicate NoneCarries(adrift: seq<Sent>, token: string) {
    forall a :: a in adrift ==> a.token != token
  }

  /** What the lock holder has seen agrees with the row and the platform. */
  ghost predicate HolderAgrees(s: State, account: Account, p: Phase) {
    match p
    case Reading(_, current) => RowAgrees(s, account) && OpenCredential(s.row, account) == Ok(current)
    case Calling(_, current, sent) =>
      && RowAgrees(s, account) && OpenCredential(s.row, account) == Ok(current)
      && CallsOut(current, sent.askedAt) && Some(sent.token) == current.refreshToken && SentFits(s.platform, sent)
    case Accepted(_, merged, renewed) =>
      && TokenAgrees(s.platform, s.unrecorded, merged.refreshToken) && NoneCarries(s.adrift, s.platform.token)
      && (!s.unrecorded ==> s.platform.lastExpiry == Some(merged.expiresAt))
      && renewed == WithKey(merged, renewed.keyVersion)
      && RowToken(s.row, account).Some? && RowToken(s.row, account).value in s.platform.spent
    case _ => RowAgrees(s, account)
  }

  ghost predicate LockAgrees(s: State, account: Account) {
    match s.lock
    case None => RowAgrees(s, account)
    case Some(w) => HolderAgrees(s, account, PhaseOf(s, w))
  }

  /** A call asked for while every issue was recorded was asked for within the window of the expiry last issued. */
  predicate InTime(sent: Sent) {
    !sent.afterLoss && sent.lastExpiry.Some? ==>
      sent.lastExpiry.value.Some? && sent.askedAt >= sent.lastExpiry.value.value - REFRESH_WINDOW_MS
  }

  /** A call on its way carries the current token exactly when nothing was unrecorded then and nothing issued since. */
  predicate SentFits(p: Platform, sent: Sent) {
    && sent.token in p.spent + {p.token}
    && sent.issues <= p.issues
    && (sent.token == p.token <==> !sent.afterLoss && sent.issues == p.issues)
    && InTime(sent)
  }

  ghost predicate AdriftFits(p: Platform, adrift: seq<Sent>) {
    forall a :: a in adrift ==> SentFits(p, a)
  }

  /** The same of every call that arrived; no token is accepted twice. */
  ghost predicate CallsExact(uses: seq<Use>, spent: set<string>) {
    && (forall i :: 0 <= i < |uses| ==>
          (uses[i].wasCurrent <==> !uses[i].sent.afterLoss && uses[i].noneSince) && InTime(uses[i].sent))
    && (forall i :: 0 <= i < |uses| && uses[i].accepted ==> uses[i].wasCurrent && uses[i].sent.token in spent)
    && (forall i, j :: 0 <= i < j < |uses| && uses[i].accepted && uses[j].accepted ==> uses[i].sent.token != uses[j].sent.token)
  }

  /** A token that has not reached the row is on no call's way; if a person holds it, it is the platform's current one. */
  ghost predicate LossFits(s: State) {
    && (s.unrecorded ==> NoneCarries(s.adrift, s.platform.token))
    && (s.pending.Some? ==>
          && s.unrecorded && s.pending.value.refreshToken == Some(s.platform.token)
          && s.platform.lastExpiry == Some(s.pending.value.expiresAt))
  }

  predicate Sane(p: Platform) {
    p.token !in p.spent && "" !in p.spent + {p.token}
  }

  ghost predicate Inv(s: State, account: Account) {
    && OpenCredential(s.row, account).Ok? && Sane(s.platform) && Mutex(s)
    && LockAgrees(s, account) && AdriftFits(s.platform, s.adrift) && LossFits(s)
    && CallsExact(s.uses, s.platform.spent)
  }

  ghost predicate Init(s: State, account: Account) {
    && s.lock.None? && s.phases == map[] && s.adrift == [] && s.pending.None? && s.uses == []
    && s.platform == Platform(s.platform.token, {}, 0, None) && !s.unrecorded && s.platform.token != ""
    && RowToken(s.row, account) == Some(s.platform.token)
  }

  // ---------------------------------------------------------------- one step

  predicate OfWorker(step: Step) {
    !step.Land? && !step.Authorize? && !step.StoreIssued?
  }

  lemma {:induction false} MutexKept(s: State, account: Account, step: Step)
    requires Mutex(s) && Enabled(s, account, step)
    ensures Mutex(Next(s, account, step))
  {
    hide OpenCredential, RefreshIsDue, CallsOut, AttemptRefresh, AdapterOutcome, SealColumns, Honest, Consumes, Fresh;
    var t := Next(s, account, step);
    if OfWorker(step) {
      forall w: nat ensures Inside(PhaseOf(t, w)) <==> t.lock == Some(w) {
        assert Inside(PhaseOf(s, w)) <==> s.lock == Some(w);
        assert Inside(PhaseOf(s, step.w)) <==> s.lock == Some(step.w);
      }
    } else {
      assert t.phases == s.phases && t.lock == s.lock;
      forall w: nat ensures Inside(PhaseOf(t, w)) <==> t.lock == Some(w) {
        assert Inside(PhaseOf(s, w)) <==> s.lock == Some(w);
      }
    }
  }

  lemma MutexHolder(s: State, w: nat)
    requires Mutex(s)
    ensures Inside(PhaseOf(s, w)) <==> s.lock == Some(w)
  {
  }

  lemma OpenedExpiry(row: Stored, account: Account)
    requires OpenCredential(row, account).Ok?
    ensures OpenCredential(row, account).value.expiresAt == row.expiresAt
    ensures RowToken(row, account) == OpenCredential(row, account).value.refreshToken
  {
  }

  /** A call that fits is recorded exactly. */
  lemma {:induction false} ReachedKeeps(s: State, sent: Sent, at: int, reply: Reply)
    requires CallsExact(s.uses, s.platform.spent) && SentFits(s.platform, sent) && Honest(s.platform, sent.token, reply)
    requires Sane(s.platform)
    ensures
      var t := Reached(s, sent, at, reply);
      CallsExact(t.uses, t.platform.spent) && Sane(t.platform)
  {
  }

  /** What else is on its way still fits, and never carries a token just issued. */
  lemma {:induction false} OthersFit(p: Platform, adrift: seq<Sent>, token: string, reply: Reply)
    requires AdriftFits(p, adrift) && Honest(p, token, reply)
    ensures AdriftFits(Replied(p, reply), adrift)
    ensures Consumes(reply) ==> NoneCarries(adrift, Replied(p, reply).token)
  {
  }

  /** What an answer changes of the rest of the state. */
  lemma AnswerFrame(s: State, account: Account, step: Step)
    requires step.Answer? && Enabled(s, account, step)
    ensures
      var t := Next(s, account, step);
      && t.adrift == s.adrift && t.pending == s.pending && t.row == s.row
      && t.platform == Replied(s.platform, step.reply)
      && t.uses == s.uses + [UseOf(s.platform, PhaseOf(s, step.w).sent, step.at, step.reply)]
  {
    hide OpenCredential, AttemptRefresh, AdapterOutcome, Replied, UseOf;
  }

  /** After an answer the row, or the renewal about to be written, is the platform's unless something went unrecorded. */
  lemma {:induction false} AnswerAgrees(s: State, account: Account, step: Step)
    requires Inv(s, account) && step.Answer? && Enabled(s, account, step)
    ensures LockAgrees(Next(s, account, step), account) && LossFits(Next(s, account, step))
  {
    hide OpenCredential, CallsExact, Mutex, AdriftFits, NoneCarries;
    MutexHolder(s, step.w);
    OpenedExpiry(s.row, account);
    OthersFit(s.platform, s.adrift, PhaseOf(s, step.w).sent.token, step.reply);
  }

  lemma {:induction false} AnswerKeeps(s: State, account: Account, step: Step)
    requires Inv(s, account) && step.Answer? && Enabled(s, account, step)
    ensures Inv(Next(s, account, step), account)
  {
    hide OpenCredential, CallsExact, Mutex, SentFits, RowAgrees, AdriftFits, LossFits, Sane, Replied, UseOf, Next;
    var sent := PhaseOf(s, step.w).sent;
    MutexKept(s, account, step);
    MutexHolder(s, step.w);
    ReachedKeeps(s, sent, step.at, step.reply);
    OthersFit(s.platform, s.adrift, sent.token, step.reply);
    AnswerAgrees(s, account, step);
    AnswerFrame(s, account, step);
  }

  lemma {:induction false} AskKeeps(s: State, account: Account, step: Step)
    requires Inv(s, account) && step.Ask? && Enabled(s, account, step)
    ensures Inv(Next(s, account, step), account)
  {
    hide OpenCredential, CallsExact, Mutex, AdriftFits, NoneCarries;
    MutexKept(s, account, step);
    MutexHolder(s, step.w);
    OpenedExpiry(s.row, account);
  }

  lemma {:induction false} CommitKeeps(s: State, account: Account, step: Step)
    requires Inv(s, account) && step.Commit? && Enabled(s, account, step)
    ensures Inv(Next(s, account, step), account)
    ensures
      var t := Next(s, account, step);
      OpenCredential(t.row, account) == Ok(PhaseOf(t, step.w).credential)
  {
    hide CallsExact, Mutex, AdriftFits, NoneCarries;
    MutexKept(s, account, step);
    MutexHolder(s, step.w);
  }

  lemma {:induction false} AbortKeeps(s: State, account: Account, step: Step)
    requires Inv(s, account) && step.Abort? && Enabled(s, account, step)
    ensures Inv(Next(s, account, step), account)
  {
    hide OpenCredential, CallsExact, Mutex, SentFits;
    MutexKept(s, account, step);
    MutexHolder(s, step.w);
    OpenedExpiry(s.row, account);
  }

  lemma {:induction false} LandAgrees(s: State, account: Account, step: Step)
    requires Inv(s, account) && step.Land? && Enabled(s, account, step)
    ensures LockAgrees(Next(s, account, step), account) && LossFits(Next(s, account, step))
  {
    hide OpenCredential, CallsExact, Mutex;
    var t := Next(s, account, step);
    assert forall a :: a in t.adrift ==> a in s.adrift;
    assert s.adrift[step.i] in s.adrift;
  }

  lemma {:induction false} LandKeeps(s: State, account: Account, step: Step)
    requires Inv(s, account) && step.Land? && Enabled(s, account, step)
    ensures Inv(Next(s, account, step), account)
  {
    hide OpenCredential, CallsExact, Mutex, SentFits, RowAgrees, LockAgrees, LossFits, Sane, Replied, UseOf;
    var sent, t := s.adrift[step.i], Next(s, account, step);
    assert sent in s.adrift;
    MutexKept(s, account, step);
    ReachedKeeps(s, sent, step.at, step.reply);
    OthersFit(s.platform, s.adrift, sent.token, step.reply);
    assert forall a :: a in t.adrift ==> a in s.adrift;
    LandAgrees(s, account, step);
  }

  lemma {:induction false} AuthorizeKeeps(s: State, account: Account, step: Step)
    requires Inv(s, account) && step.Authorize? && Enabled(s, account, step)
    ensures Inv(Next(s, account, step), account)
  {
    hide OpenCredential, Mutex;
    MutexKept(s, account, step);
  }

  lemma {:induction false} ReconnectKeeps(s: State, account: Account, step: Step)
    requires Inv(s, account) && step.StoreIssued? && Enabled(s, account, step)
    ensures Inv(Next(s, account, step), account)
  {
    hide CallsExact, Mutex, AdriftFits, NoneCarries;
    MutexKept(s, account, step);
  }

  lemma {:induction false} NextKeeps(s: State, account: Account, step: Step)
    requires Inv(s, account) && Enabled(s, account, step)
    ensures Inv(Next(s, account, step), account)
  {
    hide OpenCredential, RefreshIsDue, CallsExact, Mutex, AdriftFits, NoneCarries, SentFits;
    match step
    case Ask(_, _) => AskKeeps(s, account, step);
    case Answer(_, _, _) => AnswerKeeps(s, account, step);
    case Commit(_, _) => CommitKeeps(s, account, step);
    case Abort(_) => AbortKeeps(s, account, step);
    case Land(_, _, _) => LandKeeps(s, account, step);
    case Authorize(_) => AuthorizeKeeps(s, account, step);
    case StoreIssued(_) => ReconnectKeeps(s, account, step);
    case _ =>
      MutexKept(s, account, step);
      MutexHolder(s, step.w);
  }

  lemma {:induction false} RunKeeps(s: State, account: Account, steps: seq<Step>)
    requires Inv(s, account) && Runs(s, account, steps)
    ensures Inv(After(s, account, steps), account)
    decreases |steps|
  {
    hide Inv, Next, Enabled;
    if steps != [] {
      NextKeeps(s, account, steps[0]);
      RunKeeps(Next(s, account, steps[0]), account, steps[1..]);
    }
  }

  // ---------------------------------------------------------------- whole runs

  /**
    Over every interleaving of workers, lost answers, calls that outlive their transaction and reconnections:
    a call carries the platform's current token exactly when nothing was unrecorded as it was sent and no
    token was issued before it arrived; no token is accepted twice; calls keep to the window of the expiry
    last issued; and whenever the lock is free the row is the platform's exactly when nothing is unrecorded.
   */
  lemma {:induction false} RunsAreSafe(s: State, account: Account, steps: seq<Step>)
    requires Init(s, account) && Runs(s, account, steps)
    ensures
      var t := After(s, account, steps);
      && CallsExact(t.uses, t.platform.spent)
      && (t.lock.None? ==> (RowToken(t.row, account) == Some(t.platform.token) <==> !t.unrecorded))
  {
    hide OpenCredential, CallsExact, Mutex, AdriftFits, LossFits, Runs, After;
    assert Inv(s, account) by { InitHolds(s, account); }
    RunKeeps(s, account, steps);
  }

  lemma InitHolds(s: State, account: Account)
    requires Init(s, account)
    ensures Inv(s, account)
  {
  }

  /**
    What a worker is handed: after the platform was asked, or a renewal committed, the credential the
    row now opens to; after anything that stopped the transaction, the one it came with.
   */
  lemma {:induction false} HandedBack(s: State, account: Account, step: Step)
    requires Inv(s, account) && Enabled(s, account, step) && OfWorker(step)
    ensures
      var t := Next(s, account, step);
      PhaseOf(t, step.w).Done? ==>
        match step
        case Ask(w, _) => OpenCredential(t.row, account) == Ok(PhaseOf(t, w).credential)
        case Answer(w, _, _) => OpenCredential(t.row, account) == Ok(PhaseOf(t, w).credential)
        case Commit(w, _) => OpenCredential(t.row, account) == Ok(PhaseOf(t, w).credential)
        case Abort(w) => t.row == s.row && PhaseOf(t, w).credential == PhaseOf(s, w).stale
        case Decide(w, now) => PhaseOf(t, w).credential == PhaseOf(s, w).stale && !RefreshIsDue(PhaseOf(s, w).stale, now)
        case _ => false
  {
    hide OpenCredential, SealColumns, RefreshIsDue, CallsExact, AdriftFits, LossFits, Mutex, SentFits, RowAgrees;
    MutexHolder(s, step.w);
    if step.Commit? { CommitKeeps(s, account, step); }
  }

  /** Steps of a person connecting the account again. */
  predicate ByPerson(step: Step) {
    step.Authorize? || step.StoreIssued?
  }

  lemma {:induction false} LossStands(s: State, account: Account, step: Step)
    requires Inv(s, account) && s.unrecorded && Enabled(s, account, step) && !ByPerson(step)
    ensures
      var t := Next(s, account, step);
      && t.unrecorded && t.platform == s.platform
      && |s.uses| <= |t.uses| && t.uses[..|s.uses|] == s.uses
      && forall i :: |s.uses| <= i < |t.uses| ==> !t.uses[i].accepted
  {
    hide OpenCredential, CallsExact, Mutex, RefreshIsDue, AdriftFits;
    if OfWorker(step) { MutexHolder(s, step.w); }
    OpenedExpiry(s.row, account);
    if step.Land? { assert s.adrift[step.i] in s.adrift; }
  }

  /**
    Once a renewal has gone unrecorded nothing the workers do is accepted again or brings the row back, until
    a person connects the account again.
   */
  lemma {:induction false} LossIsForWorkers(s: State, account: Account, steps: seq<Step>)
    requires Inv(s, account) && s.unrecorded && Runs(s, account, steps)
    requires forall step :: step in steps ==> !ByPerson(step)
    ensures
      var t := After(s, account, steps);
      && t.unrecorded && t.platform == s.platform
      && |s.uses| <= |t.uses| && t.uses[..|s.uses|] == s.uses
      && forall i :: |s.uses| <= i < |t.uses| ==> !t.uses[i].accepted
    decreases |steps|
  {
    hide Inv, Next, Enabled;
    if steps != [] {
      assert steps[0] in steps;
      NextKeeps(s, account, steps[0]);
      LossStands(s, account, steps[0]);
      var t := Next(s, account, steps[0]);
      LossIsForWorkers(t, account, steps[1..]);
      var u := After(s, account, steps);
      assert u.uses[..|s.uses|] == u.uses[..|t.uses|][..|s.uses|];
      forall i | |s.uses| <= i < |t.uses| ensures !u.uses[i].accepted {
        assert u.uses[i] == u.uses[..|t.uses|][i];
      }
    }
  }

  /** Connecting it again brings the row back, whatever had been lost. */
  lemma {:induction false} ReconnectRepairs(s: State, account: Account, keyVersion: int)
    requires Inv(s, account) && Enabled(s, account, StoreIssued(keyVersion))
    ensures
      var t := Next(s, account, StoreIssued(keyVersion));
      && !t.unrecorded && RowToken(t.row, account) == Some(t.platform.token)
      && OpenCredential(t.row, account) == Ok(WithKey(s.pending.value, keyVersion))
  {
    hide CallsExact, AdriftFits, Mutex;
  }

  lemma RunCons(s: State, account: Account, step: Step, rest: seq<Step>)
    requires Enabled(s, account, step) && Runs(Next(s, account, step), account, rest)
    ensures Runs(s, account, [step] + rest)
    ensures After(s, account, [step] + rest) == After(Next(s, account, step), account, rest)
  {
    hide Enabled, Next;
    assert ([step] + rest)[1..] == rest;
  }

  lemma RunNone(s: State, account: Account)
    ensures Runs(s, account, []) && After(s, account, []) == s
  {
  }

  /** A waiting worker that takes the free lock and asks, close to expiry, sends the row's token. */
  lemma {:induction false} WaiterCalls(s: State, account: Account, w: nat, now: int)
    requires Inv(s, account) && s.lock.None? && PhaseOf(s, w).Waiting?
    requires OpenCredential(s.row, account).Ok? && CallsOut(OpenCredential(s.row, account).value, now)
    ensures
      var steps := [TakeLock(w), Reread(w), Ask(w, now)];
      && Runs(s, account, steps)
      && var t := After(s, account, steps);
      && t.row == s.row && t.platform == s.platform && t.adrift == s.adrift && t.uses == s.uses && t.unrecorded == s.unrecorded
      && PhaseOf(t, w).Calling? && PhaseOf(t, w).current == OpenCredential(s.row, account).value
      && PhaseOf(t, w).sent == Sent(PhaseOf(t, w).current.refreshToken.value, now, s.unrecorded, s.platform.issues, s.platform.lastExpiry)
      && forall v :: v != w ==> PhaseOf(t, v) == PhaseOf(s, v)
  {
    hide OpenCredential, Inv, CallsOut, Runs, After;
    var s1 := Next(s, account, TakeLock(w));
    var s2 := Next(s1, account, Reread(w));
    RunNone(Next(s2, account, Ask(w, now)), account);
    RunCons(s2, account, Ask(w, now), []);
    assert [Ask(w, now)] + [] == [Ask(w, now)];
    RunCons(s1, account, Reread(w), [Ask(w, now)]);
    assert [Reread(w)] + [Ask(w, now)] == [Reread(w), Ask(w, now)];
    RunCons(s, account, TakeLock(w), [Reread(w), Ask(w, now)]);
    assert [TakeLock(w)] + [Reread(w), Ask(w, now)] == [TakeLock(w), Reread(w), Ask(w, now)];
  }

  lemma {:induction false} RunsJoin(s: State, account: Account, first: seq<Step>, second: seq<Step>)
    requires Runs(s, account, first) && Runs(After(s, account, first), account, second)
    ensures Runs(s, account, first + second)
    ensures After(s, account, first + second) == After(After(s, account, first), account, second)
    decreases |first|
  {
    hide Enabled, Next;
    if first == [] {
      assert first + second == second;
    } else {
      RunsJoin(Next(s, account, first[0]), account, first[1..], second);
      assert (first + second)[1..] == first[1..] + second;
    }
  }

  lemma RunOne(s: State, account: Account, step: Step)
    requires Enabled(s, account, step)
    ensures Runs(s, account, [step]) && After(s, account, [step]) == Next(s, account, step)
  {
    hide Enabled, Next;
    RunNone(Next(s, account, step), account);
    RunCons(s, account, step, []);
    assert [step] + [] == [step];
  }

  /** A call sent while every issue was recorded, none issued since, carries the row's token and the platform's. */
  lemma CallerIsCurrent(s: State, account: Account, w: nat)
    requires Inv(s, account) && PhaseOf(s, w).Calling?
    requires !PhaseOf(s, w).sent.afterLoss && PhaseOf(s, w).sent.issues == s.platform.issues
    ensures s.lock == Some(w) && !s.unrecorded && PhaseOf(s, w).sent.token == s.platform.token
    ensures OpenCredential(s.row, account) == Ok(PhaseOf(s, w).current)
    ensures RefreshIsDue(PhaseOf(s, w).current, PhaseOf(s, w).sent.askedAt)
    ensures CallsOut(PhaseOf(s, w).current, PhaseOf(s, w).sent.askedAt)
    ensures PhaseOf(s, w).current.refreshToken == Some(s.platform.token)
  {
    hide CallsExact, AdriftFits, LossFits, OpenCredential;
    MutexHolder(s, w);
    OpenedExpiry(s.row, account);
  }

  /** Any connected account, its token the platform's current one, starts a run. */
  lemma ConnectedStartsRun(issued: Issued, account: Account, keyVersion: int)
    requires issued.refreshToken.Some? && issued.refreshToken.value != ""
    ensures
      var platform := Platform(issued.refreshToken.value, {}, 0, None);
      Init(State(SealColumns(issued, account, keyVersion), None, map[], [], None, platform, [], false), account)
  {
  }

  /** What the adapter answers: nothing due, a connection to renew by hand, or what came of the call. */
  lemma AdapterAnswers(c: Credential, now: int, reply: Reply)
    ensures AdapterOutcome(c, now, reply) ==
      if c.expiresAt.None? || c.expiresAt.value - now > 1_800_000 then StillValid
      else if c.refreshToken.None? || c.refreshToken.value == "" || reply.Reject? then RequiresReconnect
      else if reply.Accept? then Refreshed(reply.issued)
      else Raised
  {
  }

  /** A worker waits for the lock exactly when its credential is due; a call that lands is on its way no more. */
  lemma {:induction false} StepsAre(s: State, account: Account, step: Step)
    requires Enabled(s, account, step)
    ensures step.Decide? ==>
      PhaseOf(Next(s, account, step), step.w) ==
        if RefreshIsDue(PhaseOf(s, step.w).stale, step.now) then Waiting(PhaseOf(s, step.w).stale) else Done(PhaseOf(s, step.w).stale)
    ensures step.Land? ==>
      && multiset(Next(s, account, step).adrift) == multiset(s.adrift) - multiset{s.adrift[step.i]}
      && Next(s, account, step).uses == s.uses + [UseOf(s.platform, s.adrift[step.i], step.at, step.reply)]
    ensures step.Abort? && PhaseOf(s, step.w).Calling? ==> Next(s, account, step).adrift == s.adrift + [PhaseOf(s, step.w).sent]
  {
    hide RefreshIsDue, OpenCredential, SealColumns, CallsOut;
    if step.Land? {
      assert s.adrift == s.adrift[..step.i] + [s.adrift[step.i]] + s.adrift[step.i + 1..];
    }
  }

  /** The adapter calls out half an hour before expiry, with a refresh token that is there. */
  lemma CallsHalfAnHourAhead(c: Credential, now: int)
    ensures CallsOut(c, now) <==>
      c.expiresAt.Some? && c.expiresAt.value - now <= 1_800_000 && c.refreshToken.Some? && c.refreshToken.value != ""
  {
  }

  /** What renewing takes: every step of a worker with the lock free, the platform accepting. */
  function Renewal(w: nat, now: int, issued: Issued, keyVersion: int): seq<Step> {
    [Load(w)] + [Decide(w, now)] + [TakeLock(w), Reread(w), Ask(w, now)] + [Answer(w, now, Accept(issued))] + [Commit(w, keyVersion)]
  }

  /**
    A credential half an hour from expiry or past it is renewed by any worker that comes by while the lock is free:
    the row then opens to what was issued, and the worker leaves with it.
   */
  lemma {:induction false} WorkerRenews(s: State, account: Account, w: nat, now: int, issued: Issued, keyVersion: int)
    requires Inv(s, account) && s.lock.None? && !s.unrecorded && (PhaseOf(s, w).Idle? || PhaseOf(s, w).Done?)
    requires OpenCredential(s.row, account).Ok? && Fresh(s.platform, issued)
    requires
      var expiry := OpenCredential(s.row, account).value.expiresAt;
      expiry.Some? && expiry.value - now <= 1_800_000
    ensures Runs(s, account, Renewal(w, now, issued, keyVersion))
    ensures
      var t := After(s, account, Renewal(w, now, issued, keyVersion));
      && t.lock.None? && !t.unrecorded && t.platform == Issue(s.platform, issued)
      && PhaseOf(t, w).Done? && OpenCredential(t.row, account) == Ok(PhaseOf(t, w).credential)
      && PhaseOf(t, w).credential.accessToken == issued.accessToken && PhaseOf(t, w).credential.expiresAt == issued.expiresAt
      && PhaseOf(t, w).credential.refreshToken == issued.refreshToken && PhaseOf(t, w).credential.keyVersion == keyVersion
  {
    hide OpenCredential, Inv, CallsOut, Runs, After, RefreshIsDue, Fresh;
    var c := OpenCredential(s.row, account).value;
    RowIsCurrent(s, account);
    CallsHalfAnHourAhead(c, now);
    DueAWeekAhead(c, now);
    RunOne(s, account, Load(w));
    var s1 := Next(s, account, Load(w));
    RunOne(s1, account, Decide(w, now));
    RunsJoin(s, account, [Load(w)], [Decide(w, now)]);
    var r1 := [Load(w)] + [Decide(w, now)];
    RunKeeps(s, account, r1);
    var s2 := After(s, account, r1);
    WaiterCalls(s2, account, w, now);
    var calls := [TakeLock(w), Reread(w), Ask(w, now)];
    RunsJoin(s, account, r1, calls);
    var s3 := After(s2, account, calls);
    RunKeeps(s2, account, calls);
    AcceptedAnswer(s3, account, w, issued);
    RunOne(s3, account, Answer(w, now, Accept(issued)));
    RunsJoin(s, account, r1 + calls, [Answer(w, now, Accept(issued))]);
    var s4 := Next(s3, account, Answer(w, now, Accept(issued)));
    RunOne(s4, account, Commit(w, keyVersion));
    RunsJoin(s, account, r1 + calls + [Answer(w, now, Accept(issued))], [Commit(w, keyVersion)]);
    Committed(s4, account, w, keyVersion);
  }

  lemma RowIsCurrent(s: State, account: Account)
    requires Inv(s, account) && s.lock.None? && !s.unrecorded
    ensures OpenCredential(s.row, account).Ok? && OpenCredential(s.row, account).value.refreshToken == Some(s.platform.token)
    ensures s.platform.token != ""
  {
    hide OpenCredential, CallsExact, AdriftFits, Mutex, LossFits;
  }

  lemma AcceptedAnswer(s: State, account: Account, w: nat, issued: Issued)
    requires PhaseOf(s, w).Calling? && !s.unrecorded && Fresh(s.platform, issued)
    requires PhaseOf(s, w).sent.token == s.platform.token && CallsOut(PhaseOf(s, w).current, PhaseOf(s, w).sent.askedAt)
    ensures
      var step := Answer(w, PhaseOf(s, w).sent.askedAt, Accept(issued));
      && Enabled(s, account, step)
      && var t := Next(s, account, step);
      && PhaseOf(t, w).Accepted? && !t.unrecorded && t.platform == Issue(s.platform, issued)
      && PhaseOf(t, w).merged.accessToken == issued.accessToken && PhaseOf(t, w).merged.refreshToken == issued.refreshToken
      && PhaseOf(t, w).merged.expiresAt == issued.expiresAt
      && PhaseOf(t, w).renewed == WithKey(PhaseOf(t, w).merged, PhaseOf(t, w).renewed.keyVersion)
  {
  }

  lemma Committed(s: State, account: Account, w: nat, keyVersion: int)
    requires PhaseOf(s, w).Accepted? && PhaseOf(s, w).renewed == WithKey(PhaseOf(s, w).merged, PhaseOf(s, w).renewed.keyVersion)
    requires PhaseOf(s, w).merged.refreshToken != Some("")
    ensures Enabled(s, account, Commit(w, keyVersion))
    ensures
      var t := Next(s, account, Commit(w, keyVersion));
      && t.lock.None? && t.platform == s.platform && t.unrecorded == s.unrecorded
      && PhaseOf(t, w) == Done(WithKey(PhaseOf(s, w).merged, keyVersion))
      && OpenCredential(t.row, account) == Ok(WithKey(PhaseOf(s, w).merged, keyVersion))
  {
  }

  /** If the answer to an accepted call is lost, the next call carries the spent token. */
  lemma {:induction false} LostAnswerSpendsToken(s: State, account: Account, w: nat, issued: Issued)
    requires Inv(s, account) && PhaseOf(s, w).Calling? && Fresh(s.platform, issued)
    requires !PhaseOf(s, w).sent.afterLoss && PhaseOf(s, w).sent.issues == s.platform.issues
    ensures
      var now := PhaseOf(s, w).sent.askedAt;
      var steps := [Answer(w, now, Lost(issued)), Load(w), Decide(w, now)] +
                   [TakeLock(w), Reread(w), Ask(w, now)] + [Answer(w, now, Reject)];
      && Runs(s, account, steps)
      && var t := After(s, account, steps);
      && |t.uses| == |s.uses| + 2
      && t.uses[|s.uses|].accepted
      && t.uses[|s.uses| + 1].sent.token == t.uses[|s.uses|].sent.token
      && !t.uses[|s.uses| + 1].wasCurrent
  {
    hide OpenCredential, Inv, CallsOut, Runs, After, RefreshIsDue;
    CallerIsCurrent(s, account, w);
    var now := PhaseOf(s, w).sent.askedAt;
    var head := [Answer(w, now, Lost(issued)), Load(w), Decide(w, now)];
    LostThenLoaded(s, account, w, issued);
    var s3 := After(s, account, head);
    RunKeeps(s, account, head);
    WaiterCalls(s3, account, w, now);
    var tail := [TakeLock(w), Reread(w), Ask(w, now)];
    RunsJoin(s, account, head, tail);
    var s6 := After(s3, account, tail);
    RunOne(s6, account, Answer(w, now, Reject));
    RunsJoin(s, account, head + tail, [Answer(w, now, Reject)]);
  }

  lemma {:induction false} LostThenLoaded(s: State, account: Account, w: nat, issued: Issued)
    requires Inv(s, account) && PhaseOf(s, w).Calling? && Fresh(s.platform, issued)
    requires !PhaseOf(s, w).sent.afterLoss && PhaseOf(s, w).sent.issues == s.platform.issues
    ensures
      var now := PhaseOf(s, w).sent.askedAt;
      var steps := [Answer(w, now, Lost(issued)), Load(w), Decide(w, now)];
      && Runs(s, account, steps)
      && var t := After(s, account, steps);
      && t.lock.None? && t.row == s.row && PhaseOf(t, w).Waiting?
      && t.platform == Issue(s.platform, issued)
      && t.uses == s.uses + [UseOf(s.platform, PhaseOf(s, w).sent, now, Lost(issued))]
  {
    hide OpenCredential, Inv, CallsOut, Runs, After, RefreshIsDue, UseOf;
    CallerIsCurrent(s, account, w);
    var now := PhaseOf(s, w).sent.askedAt;
    var s1 := Next(s, account, Answer(w, now, Lost(issued)));
    AnswerFrame(s, account, Answer(w, now, Lost(issued)));
    var s2 := Next(s1, account, Load(w));
    var s3 := Next(s2, account, Decide(w, now));
    RunNone(s3, account);
    RunCons(s2, account, Decide(w, now), []);
    assert [Decide(w, now)] + [] == [Decide(w, now)];
    RunCons(s1, account, Load(w), [Decide(w, now)]);
    assert [Load(w)] + [Decide(w, now)] == [Load(w), Decide(w, now)];
    RunCons(s, account, Answer(w, now, Lost(issued)), [Load(w), Decide(w, now)]);
    assert [Answer(w, now, Lost(issued))] + [Load(w), Decide(w, now)] == [Answer(w, now, Lost(issued)), Load(w), Decide(w, now)];
  }

  /**
    A call that outlives its transaction and is overtaken carries a spent token although nothing was lost:
    the lock it was sent under is free before it arrives.
   */
  lemma {:induction false} OvertakenCallIsSpent(s: State, account: Account, w: nat, v: nat, issued: Issued)
    requires Inv(s, account) && PhaseOf(s, w).Calling? && PhaseOf(s, v).Waiting? && Fresh(s.platform, issued)
    requires !PhaseOf(s, w).sent.afterLoss && PhaseOf(s, w).sent.issues == s.platform.issues && s.adrift == []
    ensures
      var now := PhaseOf(s, w).sent.askedAt;
      var steps := [Abort(w)] + [TakeLock(v), Reread(v), Ask(v, now)] + [Answer(v, now, Accept(issued))] + [Land(0, now, Reject)];
      && Runs(s, account, steps)
      && var t := After(s, account, steps);
      && !t.unrecorded && |t.uses| == |s.uses| + 2
      && t.uses[|s.uses|].accepted
      && t.uses[|s.uses| + 1].sent == PhaseOf(s, w).sent && !t.uses[|s.uses| + 1].wasCurrent
  {
    hide OpenCredential, Inv, CallsOut, Runs, After, RefreshIsDue;
    CallerIsCurrent(s, account, w);
    var now := PhaseOf(s, w).sent.askedAt;
    var s1 := Next(s, account, Abort(w));
    RunOne(s, account, Abort(w));
    NextKeeps(s, account, Abort(w));
    WaiterCalls(s1, account, v, now);
    var calls := [TakeLock(v), Reread(v), Ask(v, now)];
    RunsJoin(s, account, [Abort(w)], calls);
    var s4 := After(s1, account, calls);
    var s5 := Overtakes(s4, account, v, issued);
    RunOne(s4, account, Answer(v, now, Accept(issued)));
    RunsJoin(s, account, [Abort(w)] + calls, [Answer(v, now, Accept(issued))]);
    RunOne(s5, account, Land(0, now, Reject));
    RunsJoin(s, account, [Abort(w)] + calls + [Answer(v, now, Accept(issued))], [Land(0, now, Reject)]);
    Landed(s5, now);
  }

  lemma {:induction false} Overtakes(s: State, account: Account, v: nat, issued: Issued) returns (t: State)
    requires PhaseOf(s, v).Calling? && PhaseOf(s, v).sent.token == s.platform.token && Fresh(s.platform, issued)
    requires CallsOut(PhaseOf(s, v).current, PhaseOf(s, v).sent.askedAt) && !s.unrecorded && |s.adrift| == 1
    ensures
      var step := Answer(v, PhaseOf(s, v).sent.askedAt, Accept(issued));
      && Enabled(s, account, step) && t == Next(s, account, step)
      && t.adrift == s.adrift && !t.unrecorded && t.platform == Issue(s.platform, issued)
      && t.uses == s.uses + [UseOf(s.platform, PhaseOf(s, v).sent, PhaseOf(s, v).sent.askedAt, Accept(issued))]
  {
    t := Next(s, account, Answer(v, PhaseOf(s, v).sent.askedAt, Accept(issued)));
  }

  lemma Landed(s: State, at: int)
    requires |s.adrift| == 1
    ensures
      var t := AfterLand(s, 0, at, Reject);
      t.uses == s.uses + [UseOf(s.platform, s.adrift[0], at, Reject)] && t.unrecorded == s.unrecorded
  {
  }
}
