/** Sessions and the password of the single administrator under concurrent requests (src/auth.ts). */
module AuthStore {
  import opened Text
  import opened Wrappers

  // ----- Passwords, tokens and sessions

  datatype Params = Params(n: nat, r: nat, p: nat, maxmem: nat)

  const CURRENT_PARAMS := Params(16384, 8, 1, 64 * 1024 * 1024)
  const PASSWORD_MIN_LENGTH := 10
  const PASSWORD_MAX_LENGTH := 128
  const MAX_ACTIVE_SESSIONS := 64
  const MAX_STORED_SESSIONS := 128
  const MAX_SESSION_ADDRESS_LENGTH := 128
  const MAX_SESSION_USER_AGENT_LENGTH := 512

  /** Hashes are free constructors: equal only for equal inputs. */
  datatype Digest = Scrypt(password: string, salt: nat, params: Params)
  datatype TokenHash = Sha256(token: nat)

  datatype PasswordRecord = PasswordRecord(salt: nat, digest: Digest, params: Option<Params>)

  datatype Context = Context(address: string, userAgent: string)

  datatype Session = Session(
    id: nat, tokenHash: TokenHash, createdAt: int, expiresAt: int, address: string, userAgent: string)

  datatype AuthState = Unconfigured | Configured(password: PasswordRecord, sessions: seq<Session>)

  datatype AuthError =
    | AlreadyConfigured | SetupRequired | AuthRequired | PasswordInvalid | PasswordMismatch | CurrentPasswordInvalid
    | StateChanged | SessionLimit | SessionNotFound | StoredStateInvalid

  function ParamsOf(r: PasswordRecord): Params {
    if r.params.Some? then r.params.value else CURRENT_PARAMS
  }

  predicate Verify(password: string, r: PasswordRecord) {
    Scrypt(password, r.salt, ParamsOf(r)) == r.digest
  }

  predicate IsCurrent(r: PasswordRecord) {
    ParamsOf(r) == CURRENT_PARAMS
  }

  /** An older record is checked by its own parameters, one without any by the current ones. */
  lemma OlderRecordsVerify(password: string, other: string, salt: nat, params: Params)
    ensures Verify(other, PasswordRecord(salt, Scrypt(password, salt, params), Some(params))) <==> other == password
    ensures Verify(other, PasswordRecord(salt, Scrypt(password, salt, Params(16384, 8, 1, 67_108_864)), None))
      <==> other == password
    ensures IsCurrent(PasswordRecord(salt, Scrypt(password, salt, params), Some(params)))
      <==> params == Params(16384, 8, 1, 67_108_864)
  {
  }

  function MakeRecord(password: string, salt: nat): (r: PasswordRecord)
    ensures Verify(password, r) && IsCurrent(r)
  {
    PasswordRecord(salt, Scrypt(password, salt, CURRENT_PARAMS), Some(CURRENT_PARAMS))
  }

  function NormalizePassword(password: string, confirmation: string): (r: Result<string, AuthError>)
    ensures r.Ok? <==> 10 <= |password| <= 128 && password == confirmation
    ensures r.Ok? ==> r.value == password
    ensures r.Err? ==> r.error == if 10 <= |password| <= 128 then PasswordMismatch else PasswordInvalid
  {
    if |password| < PASSWORD_MIN_LENGTH || |password| > PASSWORD_MAX_LENGTH then Err(PasswordInvalid)
    else if password != confirmation then Err(PasswordMismatch)
    else Ok(password)
  }

  function Blanked(s: string): string {
    seq(|s|, i requires 0 <= i < |s| => if s[i] < ' ' || s[i] == '\U{7f}' then ' ' else s[i])
  }

  function Collapsed(s: string): string {
    if s == "" then ""
    else if IsSpace(s[0]) && |s| > 1 && IsSpace(s[1]) then Collapsed(s[1..])
    else [if IsSpace(s[0]) then ' ' else s[0]] + Collapsed(s[1..])
  }

  function NormalizeSessionText(s: string, maximum: nat): (r: string)
    ensures |r| <= maximum
  {
    var text := Trim(Collapsed(Blanked(s)));
    if |text| > maximum then text[..maximum] else text
  }

  predicate IsClean(s: string) {
    && (forall i :: 0 <= i < |s| ==> s[i] >= ' ' && s[i] != '\U{7f}' && (IsSpace(s[i]) ==> s[i] == ' '))
    && forall i :: 0 <= i < |s| - 1 ==> s[i] != ' ' || s[i + 1] != ' '
  }

  lemma {:induction false} CollapsedIsClean(s: string)
    requires forall i :: 0 <= i < |s| ==> s[i] >= ' ' && s[i] != '\U{7f}'
    ensures IsClean(Collapsed(s)) && (Collapsed(s) == "" <==> s == "")
    ensures s != "" ==> (Collapsed(s)[0] == ' ' <==> IsSpace(s[0]))
  {
    if s != "" {
      CollapsedIsClean(s[1..]);
      assert |s| > 1 ==> s[1..][0] == s[1];
    }
  }

  lemma {:induction false} CleanIsCollapsed(s: string)
    requires IsClean(s)
    ensures Blanked(s) == s && Collapsed(s) == s
  {
    if s != "" {
      assert forall i :: 0 <= i < |s| - 1 ==> s[1..][i] == s[i + 1];
      CleanIsCollapsed(s[1..]);
    }
  }

  lemma {:induction false} TrimIsPart(s: string) returns (a: nat, b: nat)
    ensures a <= b <= |s| && Trim(s) == s[a..b]
    ensures a < b ==> !IsSpace(s[a]) && !IsSpace(s[b - 1])
    ensures s != "" && !IsSpace(s[0]) && !IsSpace(s[|s| - 1]) ==> a == 0 && b == |s|
    decreases |s|
  {
    hide IsSpace;
    if s == "" {
      a, b := 0, 0;
    } else if IsSpace(s[0]) {
      a, b := TrimIsPart(s[1..]);
      assert s[1..][a..b] == s[a + 1..b + 1];
      a, b := a + 1, b + 1;
    } else if IsSpace(s[|s| - 1]) {
      a, b := TrimIsPart(s[..|s| - 1]);
      assert s[..|s| - 1][a..b] == s[a..b];
    } else {
      a, b := 0, |s|;
    }
  }

  lemma CleanPart(s: string, a: nat, b: nat)
    requires IsClean(s) && a <= b <= |s|
    ensures IsClean(s[a..b])
  {
  }

  /** Stored texts have no control characters, single blanks only and none in front. */
  lemma SessionTextIsClean(s: string, maximum: nat)
    ensures
      var r := NormalizeSessionText(s, maximum);
      |r| <= maximum && IsClean(r) && (r != "" ==> !IsSpace(r[0]))
  {
    var collapsed := Collapsed(Blanked(s));
    CollapsedIsClean(Blanked(s));
    hide IsSpace, IsClean, Collapsed, Blanked, Trim;
    var a, b := TrimIsPart(collapsed);
    CleanPart(collapsed, a, b);
    var text := Trim(collapsed);
    if |text| > maximum {
      CleanPart(text, 0, maximum);
      assert text[..maximum] == text[0..maximum];
    }
  }

  /** A text that is so already, and short enough, is kept as it is. */
  lemma CleanTextIsKept(s: string, maximum: nat)
    requires IsClean(s) && |s| <= maximum && (s != "" ==> !IsSpace(s[0]) && !IsSpace(s[|s| - 1]))
    ensures NormalizeSessionText(s, maximum) == s
  {
    CleanIsCollapsed(s);
    var a, b := TrimIsPart(s);
  }

  // ----- What may be stored

  predicate SessionFits(s: Session) {
    && s.createdAt <= s.expiresAt
    && |s.address| <= MAX_SESSION_ADDRESS_LENGTH && |s.userAgent| <= MAX_SESSION_USER_AGENT_LENGTH
  }

  predicate UniqueSessions(sessions: seq<Session>) {
    forall i, j :: 0 <= i < j < |sessions| ==>
      sessions[i].id != sessions[j].id && sessions[i].tokenHash != sessions[j].tokenHash
  }

  predicate StoredFits(state: AuthState) {
    state.Configured? ==>
      && |state.sessions| <= MAX_STORED_SESSIONS
      && (forall i :: 0 <= i < |state.sessions| ==> SessionFits(state.sessions[i]))
      && UniqueSessions(state.sessions)
  }

  function NormalizeStoredSession(s: Session): Session {
    s.(address := NormalizeSessionText(s.address, MAX_SESSION_ADDRESS_LENGTH),
       userAgent := NormalizeSessionText(s.userAgent, MAX_SESSION_USER_AGENT_LENGTH))
  }

  function NormalizeStored(sessions: seq<Session>): seq<Session> {
    seq(|sessions|, i requires 0 <= i < |sessions| => NormalizeStoredSession(sessions[i]))
  }

  function ValidateStoredState(state: AuthState): Result<AuthState, AuthError> {
    if state.Unconfigured? then Ok(state)
    else if !StoredFits(state) then Err(StoredStateInvalid)
    else Ok(state.(sessions := NormalizeStored(state.sessions)))
  }

  /** A stored state is readable exactly within these bounds and without repeated ids or tokens. */
  lemma ReadableIff(state: AuthState)
    ensures ValidateStoredState(state).Ok? <==>
      state.Configured? ==>
        && |state.sessions| <= 128
        && (forall s :: s in state.sessions ==>
             s.createdAt <= s.expiresAt && |s.address| <= 128 && |s.userAgent| <= 512)
        && forall i, j :: 0 <= i < j < |state.sessions| ==>
             state.sessions[i].id != state.sessions[j].id && state.sessions[i].tokenHash != state.sessions[j].tokenHash
  {
  }

  // ----- Choosing sessions

  function Keep(sessions: seq<Session>, keep: Session -> bool): (kept: seq<Session>)
    ensures |kept| <= |sessions|
    ensures forall s :: s in kept <==> s in sessions && keep(s)
  {
    if sessions == [] then []
    else
      var more := Keep(sessions[1..], keep);
      assert sessions == [sessions[0]] + sessions[1..];
      if keep(sessions[0]) then [sessions[0]] + more else more
  }

  function ActiveSessions(sessions: seq<Session>, now: int): seq<Session> {
    Keep(sessions, (s: Session) => s.expiresAt > now)
  }

  function Without(sessions: seq<Session>, id: nat): seq<Session> {
    Keep(sessions, (s: Session) => s.id != id)
  }

  function FindSession(sessions: seq<Session>, wanted: Session -> bool): (found: Option<Session>)
    ensures found.Some? ==> found.value in sessions && wanted(found.value)
    ensures found.None? ==> forall s :: s in sessions ==> !wanted(s)
  {
    if sessions == [] then None
    else if wanted(sessions[0]) then Some(sessions[0])
    else FindSession(sessions[1..], wanted)
  }

  /** The live session a token belongs to. */
  function SessionForToken(state: AuthState, token: nat, now: int): (found: Option<Session>)
    ensures found.Some? ==> state.Configured? && found.value in state.sessions && found.value.expiresAt > now
    ensures found.Some? ==> found.value.tokenHash == Sha256(token)
  {
    if state.Unconfigured? then None
    else FindSession(ActiveSessions(state.sessions, now), (s: Session) => s.tokenHash == Sha256(token))
  }

  // ----- Mutators of the stored state: a new state, no change, or an error

  datatype Change = Written(state: AuthState) | Unchanged | Refused(error: AuthError)

  /** What a request has prepared, outside the store's transaction, before it commits. */
  datatype Ticket =
    | SetupTicket(password: string, record: PasswordRecord, session: Session)
    | LoginTicket(observed: PasswordRecord, password: string, record: PasswordRecord, session: Session)
    | ChangeTicket(token: nat, observed: PasswordRecord, password: string, record: PasswordRecord, session: Session)

  function CommitChange(stored: AuthState, ticket: Ticket, now: int): Change {
    match ValidateStoredState(stored)
    case Err(error) => Refused(error)
    case Ok(current) =>
      match ticket
      case SetupTicket(_, record, session) =>
        if current.Configured? then Refused(AlreadyConfigured) else Written(Configured(record, [session]))
      case LoginTicket(observed, _, record, session) =>
        if current.Unconfigured? then Refused(SetupRequired)
        else if current.password != observed then Unchanged
        else
          var active := ActiveSessions(current.sessions, now);
          if |active| >= MAX_ACTIVE_SESSIONS then Refused(SessionLimit)
          else Written(Configured(record, active + [session]))
      case ChangeTicket(token, observed, _, record, session) =>
        if SessionForToken(current, token, now).None? then Refused(AuthRequired)
        else if current.password != observed then Refused(StateChanged)
        else Written(Configured(record, [session]))
  }

  function LogoutChange(stored: AuthState, token: nat, now: int): Change {
    match ValidateStoredState(stored)
    case Err(error) => Refused(error)
    case Ok(current) =>
      match SessionForToken(current, token, now)
      case None => Unchanged
      case Some(session) => Written(current.(sessions := Without(ActiveSessions(current.sessions, now), session.id)))
  }

  function RevokeChange(stored: AuthState, token: nat, id: nat, now: int): Change {
    match ValidateStoredState(stored)
    case Err(error) => Refused(error)
    case Ok(current) =>
      if SessionForToken(current, token, now).None? then Refused(AuthRequired)
      else
        var active := ActiveSessions(current.sessions, now);
        if FindSession(active, (s: Session) => s.id == id).None? then Refused(SessionNotFound)
        else Written(current.(sessions := Without(active, id)))
  }

  function RevokeOthersChange(stored: AuthState, token: nat, now: int): Change {
    match ValidateStoredState(stored)
    case Err(error) => Refused(error)
    case Ok(current) =>
      match SessionForToken(current, token, now)
      case None => Refused(AuthRequired)
      case Some(caller) => Written(current.(sessions := [caller]))
  }

  // ----- The invariant

  /** Plaintexts under which sessions were opened, by session id. */
  type History = map<nat, string>

  /** Every stored session was opened under the password now stored; ids below `drawn` have been given out. */
  predicate Sound(state: AuthState, history: History, drawn: nat) {
    state.Configured? ==>
      && |state.sessions| <= MAX_ACTIVE_SESSIONS
      && UniqueSessions(state.sessions)
      && forall s :: s in state.sessions ==> SessionSound(s, state.password, history, drawn)
  }

  predicate SessionSound(s: Session, password: PasswordRecord, history: History, drawn: nat) {
    && SessionFits(s) && s.id < drawn && s.tokenHash == Sha256(s.id)
    && s.id in history && Verify(history[s.id], password)
  }

  /** A prepared request holds a session nobody has, and a record of the password it was given. */
  predicate TicketSound(t: Ticket, drawn: nat) {
    && SessionFits(t.session) && t.session.id < drawn && t.session.tokenHash == Sha256(t.session.id)
    && Verify(t.password, t.record)
    && (t.LoginTicket? ==> Verify(t.password, t.observed))
  }

  predicate NotStored(state: AuthState, id: nat) {
    state.Configured? ==> forall s :: s in state.sessions ==> s.id != id
  }

  lemma {:induction false} KeepUnique(sessions: seq<Session>, keep: Session -> bool)
    requires UniqueSessions(sessions)
    ensures UniqueSessions(Keep(sessions, keep))
  {
    if sessions != [] {
      var rest := sessions[1..];
      KeepUnique(rest, keep);
      var more := Keep(rest, keep);
      forall j | 0 <= j < |more|
        ensures more[j].id != sessions[0].id && more[j].tokenHash != sessions[0].tokenHash
      {
        assert more[j] in rest;
        var k :| 0 <= k < |rest| && rest[k] == more[j];
        assert sessions[k + 1] == more[j];
      }
    }
  }

  /** A sound state passes the check on reading, and stays sound as it is read. */
  lemma SoundIsValid(state: AuthState, history: History, drawn: nat)
    requires Sound(state, history, drawn)
    ensures ValidateStoredState(state).Ok? && Sound(ValidateStoredState(state).value, history, drawn)
    ensures state.Configured? <==> ValidateStoredState(state).value.Configured?
    ensures state.Configured? ==>
      && state.password == ValidateStoredState(state).value.password
      && ValidateStoredState(state).value.sessions == NormalizeStored(state.sessions)
  {
    if state.Configured? {
      var read := NormalizeStored(state.sessions);
      forall i | 0 <= i < |state.sessions|
        ensures SessionFits(state.sessions[i]) && SessionSound(read[i], state.password, history, drawn)
      {
        assert state.sessions[i] in state.sessions;
      }
      assert forall s :: s in read ==> exists i :: 0 <= i < |read| && read[i] == s;
    }
  }

  lemma SubsetSound(state: AuthState, sessions: seq<Session>, history: History, drawn: nat)
    requires state.Configured? && Sound(state, history, drawn)
    requires UniqueSessions(sessions) && |sessions| <= |state.sessions|
    requires forall s :: s in sessions ==> s in state.sessions
    ensures Sound(state.(sessions := sessions), history, drawn)
  {
  }

  /** A login adds a session under the same plaintext, also when it re-hashes the password. */
  lemma LoginSound(current: AuthState, active: seq<Session>, t: Ticket, history: History, drawn: nat)
    requires current.Configured? && Sound(current, history, drawn) && t.LoginTicket? && TicketSound(t, drawn)
    requires current.password == t.observed && NotStored(current, t.session.id)
    requires UniqueSessions(active) && |active| < MAX_ACTIVE_SESSIONS
    requires forall s :: s in active ==> s in current.sessions
    ensures Sound(Configured(t.record, active + [t.session]), history[t.session.id := t.password], drawn)
  {
    var grown := history[t.session.id := t.password];
    var sessions := active + [t.session];
    forall s | s in active
      ensures SessionSound(s, t.record, grown, drawn) && s.id != t.session.id && s.tokenHash != t.session.tokenHash
    {
      assert SessionSound(s, current.password, history, drawn);
      assert history[s.id] == t.password;
    }
    forall i, j | 0 <= i < j < |sessions|
      ensures sessions[i].id != sessions[j].id && sessions[i].tokenHash != sessions[j].tokenHash
    {
      assert sessions[i] in active;
    }
  }

  function Opened(history: History, t: Ticket): History {
    history[t.session.id := t.password]
  }

  lemma NormalizedIds(state: AuthState, history: History, drawn: nat, id: nat)
    requires Sound(state, history, drawn) && NotStored(state, id)
    ensures ValidateStoredState(state).Ok? && NotStored(ValidateStoredState(state).value, id)
  {
    SoundIsValid(state, history, drawn);
    if state.Configured? {
      var read := NormalizeStored(state.sessions);
      forall s | s in read
        ensures s.id != id
      {
        var i :| 0 <= i < |read| && read[i] == s;
        assert state.sessions[i] in state.sessions;
      }
    }
  }

  /** Committing any prepared request, at any later time, keeps the invariant. */
  lemma CommitIsSound(state: AuthState, t: Ticket, now: int, history: History, drawn: nat)
    requires Sound(state, history, drawn) && TicketSound(t, drawn) && NotStored(state, t.session.id)
    ensures
      var change := CommitChange(state, t, now);
      change.Written? ==>
        && Sound(change.state, Opened(history, t), drawn) && t.session in change.state.sessions
        && change.state.Configured? && change.state.password == t.record
  {
    SoundIsValid(state, history, drawn);
    NormalizedIds(state, history, drawn, t.session.id);
    var current := ValidateStoredState(state).value;
    if t.LoginTicket? && current.Configured? && current.password == t.observed {
      var active := ActiveSessions(current.sessions, now);
      KeepUnique(current.sessions, (s: Session) => s.expiresAt > now);
      if |active| < MAX_ACTIVE_SESSIONS {
        LoginSound(current, active, t, history, drawn);
      }
    }
  }

  /** Signing out and revoking only take sessions away. */
  lemma RemovalIsSound(state: AuthState, token: nat, id: nat, now: int, history: History, drawn: nat)
    requires Sound(state, history, drawn)
    ensures LogoutChange(state, token, now).Written? ==> Sound(LogoutChange(state, token, now).state, history, drawn)
    ensures RevokeChange(state, token, id, now).Written? ==>
      Sound(RevokeChange(state, token, id, now).state, history, drawn)
    ensures RevokeOthersChange(state, token, now).Written? ==>
      Sound(RevokeOthersChange(state, token, now).state, history, drawn)
  {
    SoundIsValid(state, history, drawn);
    var current := ValidateStoredState(state).value;
    if current.Configured? {
      var active := ActiveSessions(current.sessions, now);
      KeepUnique(current.sessions, (s: Session) => s.expiresAt > now);
      forall other: nat
        ensures Sound(current.(sessions := Without(active, other)), history, drawn)
      {
        KeepUnique(active, (s: Session) => s.id != other);
        SubsetSound(current, Without(active, other), history, drawn);
      }
      forall s | s in current.sessions
        ensures Sound(current.(sessions := [s]), history, drawn)
      {
        SubsetSound(current, [s], history, drawn);
      }
    }
  }

  // ----- What a token is good for

  lemma {:induction false} FindUnique(sessions: seq<Session>, s: Session, wanted: Session -> bool)
    requires s in sessions && wanted(s) && forall other :: other in sessions && wanted(other) ==> other == s
    ensures FindSession(sessions, wanted) == Some(s)
  {
    if !wanted(sessions[0]) {
      FindUnique(sessions[1..], s, wanted);
    }
  }

  /** A live session is found by its own token, and by no other. */
  lemma TokenFindsItsSession(state: AuthState, s: Session, now: int, history: History, drawn: nat)
    requires Sound(state, history, drawn) && state.Configured? && s in state.sessions && s.expiresAt > now
    ensures SessionForToken(state, s.id, now) == Some(s)
  {
    forall other | other in state.sessions && other.tokenHash == Sha256(s.id)
      ensures other == s
    {
      assert SessionSound(other, state.password, history, drawn) && SessionSound(s, state.password, history, drawn);
      var i :| 0 <= i < |state.sessions| && state.sessions[i] == s;
      var j :| 0 <= j < |state.sessions| && state.sessions[j] == other;
      assert i == j;
    }
    FindUnique(ActiveSessions(state.sessions, now), s, (x: Session) => x.tokenHash == Sha256(s.id));
  }

  /** After a password change, at any later time, only the token it returned signs in. */
  lemma ChangeEndsOtherSessions(state: AuthState, t: Ticket, now: int, token: nat, later: int)
    requires t.ChangeTicket? && CommitChange(state, t, now).Written? && t.session.tokenHash == Sha256(t.session.id)
    ensures SessionForToken(CommitChange(state, t, now).state, token, later).Some? ==> token == t.session.id
  {
  }

  /** Signing out ends the session of the token for good, and keeps every other live one. */
  lemma LogoutEndsOneSession(
    state: AuthState, token: nat, now: int, history: History, drawn: nat, s: Session, later: int)
    requires Sound(state, history, drawn) && LogoutChange(state, token, now).Written?
    ensures SessionForToken(LogoutChange(state, token, now).state, token, later).None?
    ensures
      var read := ValidateStoredState(state);
      && read.Ok? && read.value.Configured?
      && (s in read.value.sessions && s.expiresAt > now && s.id != token ==>
        s in LogoutChange(state, token, now).state.sessions)
  {
    SoundIsValid(state, history, drawn);
    var current := ValidateStoredState(state).value;
    var caller := SessionForToken(current, token, now).value;
    assert SessionSound(caller, current.password, history, drawn);
  }

  predicate SignsIn(state: AuthState, token: nat, now: int) {
    SessionForToken(state, token, now).Some?
  }

  /** The token is that of a live session of the state as it is read back. */
  predicate SignsInWhenRead(state: AuthState, token: nat, now: int) {
    state.Configured? && ValidateStoredState(state).Ok? && SignsIn(ValidateStoredState(state).value, token, now)
  }

  lemma SignsInBySession(state: AuthState, token: nat, now: int)
    ensures SignsIn(state, token, now) <==>
      state.Configured? && exists s :: s in state.sessions && s.expiresAt > now && s.tokenHash == Sha256(token)
  {
    if state.Configured? {
      var active := ActiveSessions(state.sessions, now);
      assert forall s :: s in active <==> s in state.sessions && s.expiresAt > now;
    }
  }

  /** When a prepared request takes effect, and what a refusal says. */
  lemma WhenCommitted(state: AuthState, t: Ticket, now: int, history: History, drawn: nat)
    requires Sound(state, history, drawn)
    ensures
      var change := CommitChange(state, t, now);
      match t
      case SetupTicket(_, record, session) =>
        change == if state.Unconfigured? then Written(Configured(record, [session])) else Refused(AlreadyConfigured)
      case LoginTicket(observed, _, record, session) =>
        && (change == Refused(SetupRequired) <==> state.Unconfigured?)
        && (change == Unchanged <==> state.Configured? && state.password != observed)
        && (change == Refused(SessionLimit) <==>
             && state.Configured? && state.password == observed && ValidateStoredState(state).Ok?
             && |ActiveSessions(ValidateStoredState(state).value.sessions, now)| >= 64)
        && (change.Written? ==> change.state.Configured? && change.state.password == record)
        && (change.Refused? ==> change.error in {SetupRequired, SessionLimit})
      case ChangeTicket(token, observed, _, record, session) =>
        && (change.Written? <==> SignsInWhenRead(state, token, now) && state.password == observed)
        && (change == Refused(AuthRequired) <==> !SignsInWhenRead(state, token, now))
        && (change.Refused? ==> change.error in {AuthRequired, StateChanged})
        && (change.Written? ==> change.state == Configured(record, [session]))
  {
    SoundIsValid(state, history, drawn);
  }

  /** A revocation takes effect exactly for a signed-in caller and the id of a live session. */
  lemma WhenRevoked(state: AuthState, token: nat, id: nat, now: int, history: History, drawn: nat)
    requires Sound(state, history, drawn)
    ensures
      var change := RevokeChange(state, token, id, now);
      var live := state.Configured? && exists s :: s in state.sessions && s.expiresAt > now && s.id == id;
      if !SignsInWhenRead(state, token, now) then change == Refused(AuthRequired)
      else if live then change.Written? else change == Refused(SessionNotFound)
    ensures LogoutChange(state, token, now).Written? <==> SignsInWhenRead(state, token, now)
    ensures RevokeOthersChange(state, token, now).Written? <==> SignsInWhenRead(state, token, now)
    ensures
      RevokeOthersChange(state, token, now).Refused? ==> RevokeOthersChange(state, token, now) == Refused(AuthRequired)
  {
    SoundIsValid(state, history, drawn);
    if state.Configured? {
      var read := ValidateStoredState(state).value.sessions;
      var active := ActiveSessions(read, now);
      NothingFound(active, (s: Session) => s.id == id);
      forall i | 0 <= i < |read|
        ensures read[i].id == state.sessions[i].id && read[i].expiresAt == state.sessions[i].expiresAt
      {
      }
      if s :| s in state.sessions && s.expiresAt > now && s.id == id {
        var i :| 0 <= i < |state.sessions| && state.sessions[i] == s;
        assert read[i] in active;
      }
    }
  }

  lemma {:induction false} NothingFound(sessions: seq<Session>, wanted: Session -> bool)
    ensures FindSession(sessions, wanted).None? <==> forall s :: s in sessions ==> !wanted(s)
  {
    if sessions != [] {
      NothingFound(sessions[1..], wanted);
      assert sessions == [sessions[0]] + sessions[1..];
    }
  }

  /** A login ends no live session: afterwards exactly the tokens of before sign in, and the new one. */
  lemma WhoSignsInAfterLogin(state: AuthState, t: Ticket, now: int, history: History, drawn: nat, token: nat)
    requires Sound(state, history, drawn) && TicketSound(t, drawn) && NotStored(state, t.session.id)
    requires t.LoginTicket? && CommitChange(state, t, now).Written?
    ensures
      && ValidateStoredState(state).Ok?
      && (SignsIn(CommitChange(state, t, now).state, token, now) <==>
           || SignsIn(ValidateStoredState(state).value, token, now)
           || (token == t.session.id && t.session.expiresAt > now))
  {
    var current := ValidateStoredState(state).value;
    SignsInBySession(current, token, now);
    SignsInBySession(CommitChange(state, t, now).state, token, now);
    var active := ActiveSessions(current.sessions, now);
    assert forall s :: s in active + [t.session] <==> s in active || s == t.session;
  }

  /** Signing out ends exactly the caller's session. */
  lemma WhoSignsInAfterLogout(state: AuthState, caller: nat, now: int, history: History, drawn: nat, token: nat)
    requires Sound(state, history, drawn) && LogoutChange(state, caller, now).Written?
    ensures
      && ValidateStoredState(state).Ok?
      && (SignsIn(LogoutChange(state, caller, now).state, token, now) <==>
           SignsIn(ValidateStoredState(state).value, token, now) && token != caller)
  {
    SoundIsValid(state, history, drawn);
    var current := ValidateStoredState(state).value;
    var s := SessionForToken(current, caller, now).value;
    assert SessionSound(s, current.password, history, drawn);
    KeptSignsIn(current, caller, now, history, drawn, token);
  }

  /** Revoking ends exactly the session it names. */
  lemma WhoSignsInAfterRevoke(
    state: AuthState, caller: nat, id: nat, now: int, history: History, drawn: nat, token: nat)
    requires Sound(state, history, drawn) && RevokeChange(state, caller, id, now).Written?
    ensures
      && ValidateStoredState(state).Ok?
      && (SignsIn(RevokeChange(state, caller, id, now).state, token, now) <==>
           SignsIn(ValidateStoredState(state).value, token, now) && token != id)
  {
    SoundIsValid(state, history, drawn);
    KeptSignsIn(ValidateStoredState(state).value, id, now, history, drawn, token);
  }

  /** Revoking the others leaves exactly the caller signed in. */
  lemma WhoSignsInAfterRevokingOthers(state: AuthState, caller: nat, now: int, history: History, drawn: nat, token: nat)
    requires Sound(state, history, drawn) && RevokeOthersChange(state, caller, now).Written?
    ensures SignsIn(RevokeOthersChange(state, caller, now).state, token, now) <==> token == caller
  {
    SignsInBySession(RevokeOthersChange(state, caller, now).state, token, now);
  }

  lemma KeptSignsIn(current: AuthState, id: nat, now: int, history: History, drawn: nat, token: nat)
    requires Sound(current, history, drawn) && current.Configured?
    ensures
      var kept := current.(sessions := Without(ActiveSessions(current.sessions, now), id));
      SignsIn(kept, token, now) <==> SignsIn(current, token, now) && token != id
  {
    var kept := current.(sessions := Without(ActiveSessions(current.sessions, now), id));
    SignsInBySession(kept, token, now);
    SignsInBySession(current, token, now);
    forall s | s in current.sessions
      ensures s.tokenHash == Sha256(token) <==> s.id == token
    {
      assert SessionSound(s, current.password, history, drawn);
    }
  }

  // ----- The store, with requests in any order

  datatype Step =
    | BeginSetupStep(password: string, confirmation: string, context: Context, now: int)
    | BeginLoginStep(password: string, context: Context, now: int)
    | BeginChangeStep(token: nat, password: string, changed: string, confirmation: string, context: Context, now: int)
    | CommitStep(ticket: nat, now: int)
    | LogoutStep(token: nat, now: int)
    | RevokeStep(token: nat, id: nat, now: int)
    | RevokeOthersStep(token: nat, now: int)

  class Store {
    const sessionTtl: nat
    var state: AuthState
    /** Requests under way, by the id of the session each has prepared. */
    var tickets: map<nat, Ticket>
    /** Ids, tokens and salts below this have been given out. */
    var drawn: nat
    ghost var history: History

    ghost predicate Valid()
      reads this
    {
      && Sound(state, history, drawn)
      && forall id :: id in tickets ==>
        tickets[id].session.id == id && TicketSound(tickets[id], drawn) && NotStored(state, id)
    }

    /** An empty store, or one with a password imported from the older file, never with its session. */
    constructor (imported: Option<PasswordRecord>, sessionTtl: nat)
      ensures Valid() && tickets == map[]
      ensures state == if imported.Some? then Configured(imported.value, []) else Unconfigured
    {
      this.sessionTtl := sessionTtl;
      state := if imported.Some? then Configured(imported.value, []) else Unconfigured;
      tickets, drawn, history := map[], 0, map[];
    }

    method CreateSession(context: Context, now: int) returns (session: Session)
      requires Valid()
      modifies this`drawn
      ensures Valid() && drawn == old(drawn) + 1
      ensures session.id == old(drawn) && session.tokenHash == Sha256(session.id) && SessionFits(session)
      ensures NotStored(state, session.id) && session.id !in tickets
    {
      session := Session(drawn, Sha256(drawn), now, now + sessionTtl,
        NormalizeSessionText(context.address, MAX_SESSION_ADDRESS_LENGTH),
        NormalizeSessionText(context.userAgent, MAX_SESSION_USER_AGENT_LENGTH));
      drawn := drawn + 1;
    }

    method AddTicket(t: Ticket)
      requires Valid() && TicketSound(t, drawn) && NotStored(state, t.session.id) && t.session.id !in tickets
      modifies this`tickets
      ensures Valid() && tickets == old(tickets)[t.session.id := t]
    {
      tickets := tickets[t.session.id := t];
    }

    method NewRecord(password: string) returns (r: PasswordRecord)
      requires Valid()
      modifies this`drawn
      ensures Valid() && drawn == old(drawn) + 1
      ensures r == MakeRecord(password, old(drawn))
    {
      r := MakeRecord(password, drawn);
      drawn := drawn + 1;
    }

    method BeginSetup(
      password: string, confirmation: string, context: Context, now: int) returns (r: Result<nat, AuthError>)
      requires Valid()
      modifies this
      ensures Valid() && state == old(state) && history == old(history)
      ensures r.Err? ==> tickets == old(tickets)
      ensures r.Ok? <==> state.Unconfigured? && NormalizePassword(password, confirmation).Ok?
      ensures r.Ok? ==>
        && r.value in tickets && tickets[r.value].SetupTicket? && tickets[r.value].password == password
        && tickets - {r.value} == old(tickets)
    {
      SoundIsValid(state, history, drawn);
      var observed := ValidateStoredState(state).value;
      if observed.Configured? {
        return Err(AlreadyConfigured);
      }
      var normalized := NormalizePassword(password, confirmation);
      if normalized.Err? {
        return Err(normalized.error);
      }
      var record := NewRecord(normalized.value);
      var session := CreateSession(context, now);
      AddTicket(SetupTicket(password, record, session));
      return Ok(session.id);
    }

    /** `None` for a wrong password. */
    method BeginLogin(password: string, context: Context, now: int) returns (r: Result<Option<nat>, AuthError>)
      requires Valid()
      modifies this
      ensures Valid() && state == old(state) && history == old(history)
      ensures r.Err? <==> state.Unconfigured?
      ensures r.Err? ==> r.error == SetupRequired
      ensures r.Err? || r.value.None? ==> tickets == old(tickets)
      ensures r.Ok? ==> (r.value.Some? <==> Verify(password, state.password))
      ensures r.Ok? && r.value.Some? ==>
        && r.value.value in tickets && tickets[r.value.value].LoginTicket?
        && tickets[r.value.value].observed == state.password && tickets[r.value.value].password == password
        && IsCurrent(tickets[r.value.value].record)
        && (IsCurrent(state.password) ==> tickets[r.value.value].record == state.password)
        && tickets - {r.value.value} == old(tickets)
    {
      SoundIsValid(state, history, drawn);
      var observed := ValidateStoredState(state).value;
      if observed.Unconfigured? {
        return Err(SetupRequired);
      }
      if !Verify(password, observed.password) {
        return Ok(None);
      }
      var session := CreateSession(context, now);
      var record := observed.password;
      if !IsCurrent(observed.password) {
        record := NewRecord(password);
      }
      AddTicket(LoginTicket(observed.password, password, record, session));
      return Ok(Some(session.id));
    }

    method BeginChange(token: nat, password: string, changed: string, confirmation: string, context: Context, now: int)
      returns (r: Result<nat, AuthError>)
      requires Valid()
      modifies this
      ensures Valid() && state == old(state) && history == old(history)
      ensures r.Err? ==> tickets == old(tickets)
      ensures r == Err(AuthRequired) <==> !SignsInWhenRead(state, token, now)
      ensures r.Ok? <==>
        && SignsInWhenRead(state, token, now) && Verify(password, state.password)
        && NormalizePassword(changed, confirmation).Ok?
      ensures r.Ok? ==>
        && r.value in tickets && tickets[r.value].ChangeTicket?
        && tickets[r.value].observed == state.password && tickets[r.value].password == changed
        && tickets[r.value].token == token && tickets - {r.value} == old(tickets)
    {
      SoundIsValid(state, history, drawn);
      var observed := ValidateStoredState(state).value;
      if observed.Unconfigured? || SessionForToken(observed, token, now).None? {
        return Err(AuthRequired);
      }
      if !Verify(password, observed.password) {
        return Err(CurrentPasswordInvalid);
      }
      var normalized := NormalizePassword(changed, confirmation);
      if normalized.Err? {
        return Err(normalized.error);
      }
      var record := NewRecord(normalized.value);
      var session := CreateSession(context, now);
      AddTicket(ChangeTicket(token, observed.password, changed, record, session));
      return Ok(session.id);
    }

    /** The transaction of a prepared request. `Ok(false)` when a login finds another password stored. */
    method Commit(id: nat, now: int) returns (r: Result<bool, AuthError>)
      requires Valid() && id in tickets
      modifies this
      ensures Valid() && tickets == old(tickets) - {id}
      ensures
        match CommitChange(old(state), old(tickets[id]), now)
        case Written(next) => state == next && r == Ok(true) && history == Opened(old(history), old(tickets[id]))
        case Unchanged => state == old(state) && r == Ok(false) && history == old(history)
        case Refused(error) => state == old(state) && r == Err(error) && history == old(history)
    {
      var t := tickets[id];
      CommitIsSound(state, t, now, history, drawn);
      ghost var before := state;
      var change := CommitChange(state, t, now);
      tickets := tickets - {id};
      match change
      case Written(next) =>
        forall other | other in tickets
          ensures NotStored(next, other)
        {
          OtherNotStored(state, t, now, history, drawn, other);
        }
        state := next;
        history := Opened(history, t);
        return Ok(true);
      case Unchanged =>
        return Ok(false);
      case Refused(error) =>
        return Err(error);
    }

    /** Writes what a removal makes of the state. */
    method Write(change: Change) returns (r: Result<bool, AuthError>)
      requires Valid()
      requires change.Written? ==>
        Sound(change.state, history, drawn) && forall id :: NotStored(state, id) ==> NotStored(change.state, id)
      modifies this`state
      ensures Valid()
      ensures match change
        case Written(next) => state == next && r == Ok(true)
        case Unchanged => state == old(state) && r == Ok(false)
        case Refused(error) => state == old(state) && r == Err(error)
    {
      match change
      case Written(next) =>
        state := next;
        return Ok(true);
      case Unchanged =>
        return Ok(false);
      case Refused(error) =>
        return Err(error);
    }

    method Logout(token: nat, now: int) returns (r: Result<bool, AuthError>)
      requires Valid()
      modifies this`state
      ensures Valid()
      ensures match LogoutChange(old(state), token, now)
        case Written(next) => state == next && r == Ok(true)
        case Unchanged => state == old(state) && r == Ok(false)
        case Refused(error) => state == old(state) && r == Err(error)
    {
      RemovalIsSound(state, token, 0, now, history, drawn);
      RemovalStoresNothing(state, token, 0, now, history, drawn);
      r := Write(LogoutChange(state, token, now));
    }

    method RevokeSession(token: nat, id: nat, now: int) returns (r: Result<bool, AuthError>)
      requires Valid()
      modifies this`state
      ensures Valid()
      ensures match RevokeChange(old(state), token, id, now)
        case Written(next) => state == next && r == Ok(true)
        case Unchanged => state == old(state) && r == Ok(false)
        case Refused(error) => state == old(state) && r == Err(error)
    {
      RemovalIsSound(state, token, id, now, history, drawn);
      RemovalStoresNothing(state, token, id, now, history, drawn);
      r := Write(RevokeChange(state, token, id, now));
    }

    method RevokeOtherSessions(token: nat, now: int) returns (r: Result<bool, AuthError>)
      requires Valid()
      modifies this`state
      ensures Valid()
      ensures match RevokeOthersChange(old(state), token, now)
        case Written(next) => state == next && r == Ok(true)
        case Unchanged => state == old(state) && r == Ok(false)
        case Refused(error) => state == old(state) && r == Err(error)
    {
      RemovalIsSound(state, token, 0, now, history, drawn);
      RemovalStoresNothing(state, token, 0, now, history, drawn);
      r := Write(RevokeOthersChange(state, token, now));
    }

    /** One request, or one transaction of a prepared one; those in `kept` are committed by their own callers. */
    method Perform(step: Step, kept: set<nat>)
      requires Valid()
      modifies this
      ensures Valid()
      ensures forall id :: id in kept && id in old(tickets) ==> id in tickets && tickets[id] == old(tickets[id])
    {
      match step {
        case BeginSetupStep(password, confirmation, context, now) =>
          var r := BeginSetup(password, confirmation, context, now);
        case BeginLoginStep(password, context, now) => var r := BeginLogin(password, context, now);
        case BeginChangeStep(token, password, changed, confirmation, context, now) =>
          var r := BeginChange(token, password, changed, confirmation, context, now);
        case CommitStep(ticket, now) =>
          if ticket in tickets && ticket !in kept {
            var r := Commit(ticket, now);
          }
        case LogoutStep(token, now) => var r := Logout(token, now);
        case RevokeStep(token, id, now) => var r := RevokeSession(token, id, now);
        case RevokeOthersStep(token, now) => var r := RevokeOtherSessions(token, now);
      }
    }

    /** Whatever requests do in whatever order, the stored state stays sound and readable. */
    method Run(steps: seq<Step>, kept: set<nat>)
      requires Valid()
      modifies this
      ensures Valid() && StoredFits(state)
      ensures forall id :: id in kept && id in old(tickets) ==> id in tickets && tickets[id] == old(tickets[id])
      ensures state.Configured? ==>
        && |state.sessions| <= 64
        && forall s :: s in state.sessions ==> s.id in history && Verify(history[s.id], state.password)
    {
      for i := 0 to |steps|
        invariant Valid()
        invariant forall id :: id in kept && id in old(tickets) ==> id in tickets && tickets[id] == old(tickets[id])
      {
        Perform(steps[i], kept);
      }
      SoundIsValid(state, history, drawn);
      if state.Configured? {
        assert forall s :: s in state.sessions ==> SessionSound(s, state.password, history, drawn);
      }
    }

    /**
     * A login with one retry; the other requests go on between its reading and its transaction. `kept` are the
     * sessions stored for it.
     */
    method Login(password: string, context: Context, now: int, others: seq<seq<Step>>)
      returns (r: Result<Option<nat>, AuthError>, ghost kept: set<nat>)
      requires Valid() && |others| == 2
      modifies this
      ensures Valid()
      ensures kept == if r.Ok? && r.value.Some? then {r.value.value} else {}
      ensures r.Ok? && r.value.Some? ==>
        && state.Configured? && Verify(password, state.password)
        && exists s :: s in state.sessions && s.id == r.value.value && Verify(history[s.id], state.password)
    {
      kept := {};
      for attempt := 0 to 2
        invariant Valid() && kept == {}
      {
        var begun := BeginLogin(password, context, now);
        if begun.Err? || begun.value.None? {
          return begun, kept;
        }
        var id := begun.value.value;
        ghost var t := tickets[id];
        Run(others[attempt], {id});
        CommitIsSound(state, t, now, history, drawn);
        var committed := Commit(id, now);
        if committed.Err? {
          return Err(committed.error), kept;
        }
        kept := if committed.value then {id} else {};
        if committed.value {
          assert SessionSound(t.session, state.password, history, drawn);
          return Ok(Some(id)), kept;
        }
      }
      return Ok(None), kept;
    }
  }

  lemma OtherNotStored(state: AuthState, t: Ticket, now: int, history: History, drawn: nat, other: nat)
    requires Sound(state, history, drawn) && NotStored(state, other) && other != t.session.id
    requires CommitChange(state, t, now).Written?
    ensures NotStored(CommitChange(state, t, now).state, other)
  {
    NormalizedIds(state, history, drawn, other);
  }

  lemma RemovalStoresNothing(state: AuthState, token: nat, id: nat, now: int, history: History, drawn: nat)
    requires Sound(state, history, drawn)
    ensures forall other :: NotStored(state, other) ==>
      && (LogoutChange(state, token, now).Written? ==> NotStored(LogoutChange(state, token, now).state, other))
      && (RevokeChange(state, token, id, now).Written? ==> NotStored(RevokeChange(state, token, id, now).state, other))
      && (RevokeOthersChange(state, token, now).Written? ==>
        NotStored(RevokeOthersChange(state, token, now).state, other))
  {
    forall other | NotStored(state, other)
      ensures LogoutChange(state, token, now).Written? ==> NotStored(LogoutChange(state, token, now).state, other)
      ensures RevokeChange(state, token, id, now).Written? ==>
        NotStored(RevokeChange(state, token, id, now).state, other)
      ensures RevokeOthersChange(state, token, now).Written? ==>
        NotStored(RevokeOthersChange(state, token, now).state, other)
    {
      NormalizedIds(state, history, drawn, other);
    }
  }
}
