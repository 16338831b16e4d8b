/**
 * Login sessions: a session is resolved by comparing instants, but cleaned up by comparing
 * stored texts. The laws say exactly when the two disagree.
 */
module LoginSessions {
  import opened Wrappers
  import opened Calendar
  import opened Text
  import opened TimeText

  type Id = int

  datatype Account = Account(role: string, active: bool)
  datatype Session = Session(id: Id, accountId: Id, expires: Instant, revoked: Option<Instant>) {
    ghost predicate Valid() { expires.Valid() && (revoked.Some? ==> revoked.value.Valid()) }
  }
  datatype Principal = Principal(accountId: Id, role: string, sessionId: Id, expires: Instant)
  datatype SessionError = InvalidSession | SessionExpired | AccountDisabled | InsertFailed

  const DAY_SECONDS := 86400

  /** The row condition of DeleteExpiredSessions. */
  predicate CleanedUp(s: Session, now: Instant)
    requires s.Valid() && now.Valid()
  {
    || TextAtMost(s.expires, now)
    || (s.revoked.Some? && TextAtMost(s.revoked.value, Instant(now.sec - DAY_SECONDS, now.nano)))
  }

  class SessionStore {
    var accounts: map<Id, Account>
    var sessions: map<string, Session>
    var next: Id

    ghost predicate Valid() reads this {
      && forall t :: t in sessions ==> sessions[t].Valid() && sessions[t].accountId in accounts && sessions[t].id < next
    }

    constructor (accounts: map<Id, Account>)
      ensures Valid() && this.accounts == accounts && sessions == map[]
    {
      this.accounts, sessions, next := accounts, map[], 1;
    }

    method CreateSession(accountId: Id, token: string, expires: Instant) returns (r: Result<Id, SessionError>)
      requires Valid() && expires.Valid()
      modifies this`sessions, this`next
      ensures Valid()
      ensures r.Ok? <==> token !in old(sessions) && accountId in accounts
      ensures sessions == if r.Ok? then old(sessions)[token := Session(r.value, accountId, expires, None)]
          else old(sessions)
      ensures r.Ok? ==> forall t :: t in old(sessions) ==> old(sessions)[t].id < r.value
    {
      if token in sessions || accountId !in accounts {
        return Err(InsertFailed);
      }
      sessions := sessions[token := Session(next, accountId, expires, None)];
      next := next + 1;
      r := Ok(next - 1);
    }

    method RevokeSession(token: string, now: Instant) returns (r: Result<(), SessionError>)
      requires Valid() && now.Valid()
      modifies this`sessions
      ensures Valid()
      ensures r.Ok? <==> token in old(sessions) && old(sessions)[token].revoked.None?
      ensures sessions == if r.Ok? then old(sessions)[token := old(sessions)[token].(revoked := Some(now))]
          else old(sessions)
    {
      if token !in sessions || sessions[token].revoked.Some? {
        return Err(InvalidSession);
      }
      sessions := sessions[token := sessions[token].(revoked := Some(now))];
      r := Ok(());
    }

    /** Whether a token still opens the account: instants are compared, not texts. */
    predicate Resolves(token: string, now: Instant)
      reads this
      requires Valid()
    {
      && token in sessions && sessions[token].revoked.None?
      && Earlier(now, sessions[token].expires) && accounts[sessions[token].accountId].active
    }

    method ResolveSession(token: string, now: Instant) returns (r: Result<Principal, SessionError>)
      requires Valid()
      ensures r.Ok? <==> (token in sessions && sessions[token].revoked.None?
                          && Earlier(now, sessions[token].expires) && accounts[sessions[token].accountId].active)
      ensures r.Ok? ==> var s := sessions[token];
                        r.value == Principal(s.accountId, accounts[s.accountId].role, s.id, s.expires)
      ensures r == Err(SessionExpired)
          <==> token in sessions && sessions[token].revoked.None? && !Earlier(now, sessions[token].expires)
    {
      if token !in sessions || sessions[token].revoked.Some? {
        return Err(InvalidSession);
      }
      var s := sessions[token];
      var p := Principal(s.accountId, accounts[s.accountId].role, s.id, s.expires);
      if !Earlier(now, p.expires) {
        return Err(SessionExpired);
      }
      if !accounts[s.accountId].active {
        return Err(AccountDisabled);
      }
      r := Ok(p);
    }

    method DeleteExpiredSessions(now: Instant) returns (count: nat)
      requires Valid() && now.Valid()
      modifies this`sessions
      ensures Valid()
      ensures forall t :: t in sessions <==> t in old(sessions) && !CleanedUp(old(sessions)[t], now)
      ensures forall t :: t in sessions ==> sessions[t] == old(sessions)[t]
      ensures count == |old(sessions)| - |sessions|
    {
      var gone := set t | t in sessions && CleanedUp(sessions[t], now);
      ghost var before := sessions;
      sessions := sessions - gone;
      count := |gone|;
      assert sessions.Keys == before.Keys - gone;
      assert |before.Keys - gone| == |before.Keys| - |gone|;
    }

    /**
     * Cleanup removes a session that still resolves exactly when it expires later in the
     * same second and its written fraction continues the fraction of the clock.
     */
    lemma LiveSessionLost(token: string, now: Instant)
      requires Valid() && now.Valid() && Resolves(token, now)
      ensures var expires := sessions[token].expires;
              CleanedUp(sessions[token], now)
              <==> expires.sec == now.sec && Fraction(now.nano) < Fraction(expires.nano)
    {
      var expires := sessions[token].expires;
      TailOrder(expires.nano, now.nano);
    }
  }

  /** The mirror case: an expired session survives exactly when the clock continues its fraction. */
  lemma ExpiredSessionKept(s: Session, now: Instant)
    requires s.Valid() && now.Valid() && s.revoked.None? && !Earlier(now, s.expires)
    ensures !CleanedUp(s, now) <==> s.expires.sec == now.sec && Fraction(s.expires.nano) < Fraction(now.nano)
  {
    TailOrder(now.nano, s.expires.nano);
  }

  /** Cleanup of an unrevoked session never reaches past the second of its cutoff. */
  lemma CleanupStaysInItsSecond(s: Session, now: Instant)
    requires s.Valid() && now.Valid() && s.revoked.None?
    ensures CleanedUp(s, now) ==> s.expires.sec <= now.sec
    ensures s.expires.sec < now.sec ==> CleanedUp(s, now)
  {
    TextOrderKeepsSeconds(s.expires, now);
    TextBeforeIsTotal(s.expires, now);
  }

  /** In bytes, for years of four digits: expired by its text, or revoked no later than a day ago by its text. */
  lemma CleanedUpByText(s: Session, now: Instant, dayAgo: Instant)
    requires now.FourDigitYear() && dayAgo.FourDigitYear() && s.expires.FourDigitYear()
    requires s.revoked.Some? ==> s.revoked.value.FourDigitYear()
    requires dayAgo.nano == now.nano && dayAgo.sec == now.sec - 24 * 60 * 60
    ensures CleanedUp(s, now)
       <==> || !TextLess(TimeText.TimeText(now), TimeText.TimeText(s.expires))
            || (s.revoked.Some? && !TextLess(TimeText.TimeText(dayAgo), TimeText.TimeText(s.revoked.value)))
  {
    TextOrderAgainstTimeOrder(now, s.expires);
    if s.revoked.Some? {
      TextOrderAgainstTimeOrder(dayAgo, s.revoked.value);
    }
  }

  /** A revoked session that has not expired is kept for a day, to the second, and removed after it. */
  lemma RevokedKeptForADay(s: Session, now: Instant)
    requires s.Valid() && now.Valid() && s.revoked.Some? && now.sec < s.expires.sec
    ensures now.sec < s.revoked.value.sec + 86400 ==> !CleanedUp(s, now)
    ensures s.revoked.value.sec + 86400 < now.sec ==> CleanedUp(s, now)
  {
    TextOrderKeepsSeconds(s.expires, now);
    var dayAgo := Instant(now.sec - 86400, now.nano);
    TextOrderKeepsSeconds(s.revoked.value, dayAgo);
    TextBeforeIsTotal(s.revoked.value, dayAgo);
  }

  /** A concrete loss: half a second of life left, and a clock on the full second. */
  lemma HalfSecondLost()
    ensures var s := Session(1, 1, Instant(0, 500_000_000), None);
            Earlier(Instant(0, 0), s.expires) && CleanedUp(s, Instant(0, 0))
  {
    HalfSecondFraction();
  }
}
