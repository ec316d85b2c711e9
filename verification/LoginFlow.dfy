/** The Telegram login wizard: temporary session rows, their expiry, and the three request handlers.
    Replies of Telegram, the clock and the unlock state are parameters; requests do not overlap.

    Every committed write is an entry of a log, so the order of the writes of one request is visible
    and every claim about reachable tables also covers the tables between two writes. */
module LoginFlow {
  import opened Basics

  const SESSION_TTL_SECONDS := 900

  datatype Status = CodeSent | PasswordRequired | Authenticated

  datatype Session = Session(phone: string, status: Status, expiresAt: int, telegramSession: Option<string>)

  /** `accounts` maps the phone number of an account to the session string stored for it, if any. */
  datatype Tables = Tables(sessions: map<string, Session>, accounts: map<string, Option<string>>)

  const EMPTY_TABLES := Tables(map[], map[])

  datatype Write =
    | CreateRow(id: string, phone: string, expiresAt: int)
    | SetStatus(id: string, status: Status, telegramSession: Option<string>, updateSession: bool)
    | DeleteRow(id: string)
    | UpsertAccount(phone: string)
    | StoreSession(phone: string, session: string)

  /** What Telegram answers to a code, and to a password; a session string may be missing. */
  datatype CodeReply = SignedIn(session: Option<string>) | PasswordNeeded(session: Option<string>)
                     | WrongCode | CodeExpired | NumberRejected | BadApiCredentials
  datatype PasswordReply = Accepted(session: Option<string>) | WrongPassword | NumberBlocked | BadCredentials

  datatype Response = Success(status: Status) | CodeNotSent | NotFound | Expired | Conflict | MissingSession | Locked
                    | SessionCaptureFailed | WrongSecret | CodeHasExpired | NumberFailure | InvalidCredentials

  /** `first` is the time of the initial lookup, `last` that of the final check; `unlocked` and
      `stillUnlocked` are the two tests of the sensitive-operation lock. */
  datatype Moment = Moment(first: int, last: int, unlocked: bool, stillUnlocked: bool)

  /** A new session comes with a generated id; a duplicate is refused by the primary key. */
  datatype Request =
    | StartRequest(id: string, phone: string, sent: bool, now: int)
    | CodeRequest(id: string, codeReply: CodeReply, at: Moment)
    | PasswordRequest(id: string, passwordReply: PasswordReply, at: Moment)

  /** What a request writes, in order, and what it answers. */
  datatype Outcome = Outcome(writes: seq<Write>, response: Response)

  // ----- specification -----

  predicate IsExpired(row: Session, now: int) {
    row.expiresAt <= now
  }

  predicate Captured(session: Option<string>) {
    session.Some? && session.value != ""
  }

  function AfterWrite(t: Tables, w: Write): Tables {
    match w
    case CreateRow(id, phone, expiresAt) => t.(sessions := t.sessions[id := Session(phone, CodeSent, expiresAt, None)])
    case SetStatus(id, status, session, update) =>
      if id !in t.sessions then t
      else
        var row := t.sessions[id];
        t.(sessions := t.sessions[id := row.(status := status, telegramSession := if update then session
                                             else row.telegramSession)])
    case DeleteRow(id) => t.(sessions := t.sessions - {id})
    case UpsertAccount(phone) => if phone in t.accounts then t else t.(accounts := t.accounts[phone := None])
    case StoreSession(phone, session) =>
      if phone in t.accounts then t.(accounts := t.accounts[phone := Some(session)]) else t
  }

  function AfterWrites(t: Tables, writes: seq<Write>): Tables {
    if writes == [] then t else AfterWrite(AfterWrites(t, writes[..|writes| - 1]), writes[|writes| - 1])
  }

  /** The tables a log of writes leads to. */
  function Replay(log: seq<Write>): Tables {
    AfterWrites(EMPTY_TABLES, log)
  }

  function Started(t: Tables, id: string, phone: string, sent: bool, now: int): Outcome {
    if !sent then Outcome([], CodeNotSent)
    else if id in t.sessions then Outcome([], Conflict)
    else Outcome([CreateRow(id, phone, now + SESSION_TTL_SECONDS)], Success(CodeSent))
  }

  /** `update_status` writes first and deletes the row again when it turns out to have expired. */
  function Updated(row: Session, id: string, status: Status, session: Option<string>, update: bool, now: int): Outcome {
    if IsExpired(row, now) then Outcome([SetStatus(id, status, session, update), DeleteRow(id)], Expired)
    else Outcome([SetStatus(id, status, session, update)], Success(status))
  }

  /** `_persist` commits the account row and then its session string. */
  function Persisting(phone: string, session: string): seq<Write> {
    [UpsertAccount(phone), StoreSession(phone, session)]
  }

  /** The common end of both verification handlers. */
  function Finished(row: Session, id: string, session: Option<string>, clearSession: bool, at: Moment): Outcome {
    if !Captured(session) then Outcome([], SessionCaptureFailed)
    else if !at.stillUnlocked then Outcome([], Locked)
    else
      var updated := Updated(row, id, Authenticated, None, clearSession, at.last);
      Outcome(Persisting(row.phone, session.value) + updated.writes, updated.response)
  }

  function VerifiedCode(t: Tables, id: string, reply: CodeReply, at: Moment): Outcome {
    if id !in t.sessions then Outcome([], NotFound)
    else if IsExpired(t.sessions[id], at.first) then Outcome([DeleteRow(id)], Expired)
    else if t.sessions[id].status != CodeSent then Outcome([], Conflict)
    else if !at.unlocked then Outcome([], Locked)
    else match reply
      case SignedIn(session) => Finished(t.sessions[id], id, session, false, at)
      case PasswordNeeded(session) =>
        if Captured(session) then Updated(t.sessions[id], id, PasswordRequired, session, true, at.last)
        else Outcome([], SessionCaptureFailed)
      case WrongCode => Outcome([], WrongSecret)
      case CodeExpired => Outcome([DeleteRow(id)], CodeHasExpired)
      case NumberRejected => Outcome([], NumberFailure)
      case BadApiCredentials => Outcome([], InvalidCredentials)
  }

  function VerifiedPassword(t: Tables, id: string, reply: PasswordReply, at: Moment): Outcome {
    if id !in t.sessions then Outcome([], NotFound)
    else if IsExpired(t.sessions[id], at.first) then Outcome([DeleteRow(id)], Expired)
    else if t.sessions[id].status != PasswordRequired then Outcome([], Conflict)
    else if !Captured(t.sessions[id].telegramSession) then Outcome([], MissingSession)
    else if !at.unlocked then Outcome([], Locked)
    else match reply
      case Accepted(session) => Finished(t.sessions[id], id, session, true, at)
      case WrongPassword => Outcome([], WrongSecret)
      case NumberBlocked => Outcome([], NumberFailure)
      case BadCredentials => Outcome([], InvalidCredentials)
  }

  function Answer(t: Tables, r: Request): Outcome {
    match r
    case StartRequest(id, phone, sent, now) => Started(t, id, phone, sent, now)
    case CodeRequest(id, reply, at) => VerifiedCode(t, id, reply, at)
    case PasswordRequest(id, reply, at) => VerifiedPassword(t, id, reply, at)
  }

  /** The log after a run of requests, one at a time. */
  function RunLog(log: seq<Write>, requests: seq<Request>): seq<Write> {
    if requests == [] then log
    else
      var before := RunLog(log, requests[..|requests| - 1]);
      before + Answer(Replay(before), requests[|requests| - 1]).writes
  }

  /** The answers of the run. */
  function Responses(log: seq<Write>, requests: seq<Request>): seq<Response> {
    if requests == [] then []
    else
      var before := requests[..|requests| - 1];
      Responses(log, before) + [Answer(Replay(RunLog(log, before)), requests[|requests| - 1]).response]
  }

  lemma ReplayAppend(t: Tables, log: seq<Write>, w: Write)
    ensures AfterWrites(t, log + [w]) == AfterWrite(AfterWrites(t, log), w)
  {
    assert (log + [w])[..|log|] == log;
  }

  lemma {:induction false} ReplayConcat(t: Tables, log: seq<Write>, more: seq<Write>)
    ensures AfterWrites(t, log + more) == AfterWrites(AfterWrites(t, log), more)
  {
    if more == [] {
      assert log + more == log;
    } else {
      var rest, w := more[..|more| - 1], more[|more| - 1];
      assert log + more == (log + rest) + [w];
      ReplayConcat(t, log, rest);
      ReplayAppend(t, log + rest, w);
    }
  }

  // ----- the handlers as written -----

  class AuthFlow {
    var sessions: map<string, Session>
    var accounts: map<string, Option<string>>
    ghost var log: seq<Write>

    ghost function Snapshot(): Tables
      reads this
    {
      Tables(sessions, accounts)
    }

    ghost predicate Valid()
      reads this
    {
      Snapshot() == Replay(log)
    }

    constructor ()
      ensures Valid() && log == []
    {
      sessions, accounts, log := map[], map[], [];
    }

    /** Request a code and create a row under a fresh id; `sent` is Telegram's answer. */
    method StartAuth(id: string, phone: string, sent: bool, now: int) returns (r: Response)
      requires Valid()
      modifies this
      ensures Valid()
      ensures var outcome := Started(old(Snapshot()), id, phone, sent, now);
              log == old(log) + outcome.writes && r == outcome.response
    {
      if !sent {
        return CodeNotSent;
      }
      if id in sessions {
        return Conflict;
      }
      sessions := sessions[id := Session(phone, CodeSent, now + SESSION_TTL_SECONDS, None)];
      ReplayAppend(EMPTY_TABLES, log, CreateRow(id, phone, now + SESSION_TTL_SECONDS));
      log := log + [CreateRow(id, phone, now + SESSION_TTL_SECONDS)];
      r := Success(CodeSent);
    }

    /** `delete_session`. */
    method DeleteSession(id: string)
      requires Valid()
      modifies this
      ensures Valid() && log == old(log) + [DeleteRow(id)]
    {
      sessions := sessions - {id};
      ReplayAppend(EMPTY_TABLES, log, DeleteRow(id));
      log := log + [DeleteRow(id)];
    }

    /** `get_session`: an expired row is deleted on sight. */
    method GetSession(id: string, now: int) returns (row: Option<Session>, error: Response)
      requires Valid()
      modifies this
      ensures Valid()
      ensures row.Some? <==> id in old(sessions) && !IsExpired(old(sessions)[id], now)
      ensures row.Some? ==> row.value == old(sessions)[id] && log == old(log) && Snapshot() == old(Snapshot())
      ensures row.None? ==> error == (if id in old(sessions) then Expired else NotFound) &&
                            log == old(log) + (if id in old(sessions) then [DeleteRow(id)] else [])
    {
      error := NotFound;
      if id !in sessions {
        return None, NotFound;
      }
      if IsExpired(sessions[id], now) {
        DeleteSession(id);
        return None, Expired;
      }
      row := Some(sessions[id]);
    }

    /** `update_status`. */
    method UpdateStatus(id: string, status: Status, telegramSession: Option<string>, updateSession: bool,
                        now: int) returns (r: Response)
      requires Valid() && id in sessions
      modifies this
      ensures Valid()
      ensures var outcome := Updated(old(sessions)[id], id, status, telegramSession, updateSession, now);
              log == old(log) + outcome.writes && r == outcome.response
      ensures accounts == old(accounts) && (r.Success? <==> id in sessions)
      ensures r.Success? ==> sessions[id].status == status && !IsExpired(sessions[id], now)
    {
      if updateSession {
        sessions := sessions[id := sessions[id].(status := status, telegramSession := telegramSession)];
      } else {
        sessions := sessions[id := sessions[id].(status := status)];
      }
      ReplayAppend(EMPTY_TABLES, log, SetStatus(id, status, telegramSession, updateSession));
      log := log + [SetStatus(id, status, telegramSession, updateSession)];
      if IsExpired(sessions[id], now) {
        DeleteSession(id);
        return Expired;
      }
      r := Success(status);
    }

    /** `_persist_authenticated_session`: the account row, then its session string. */
    method PersistSession(phone: string, session: string)
      requires Valid()
      modifies this
      ensures Valid() && log == old(log) + Persisting(phone, session)
      ensures sessions == old(sessions) && accounts == old(accounts)[phone := Some(session)]
    {
      if phone !in accounts {
        accounts := accounts[phone := None];
      }
      ReplayAppend(EMPTY_TABLES, log, UpsertAccount(phone));
      log := log + [UpsertAccount(phone)];
      accounts := accounts[phone := Some(session)];
      ReplayAppend(EMPTY_TABLES, log, StoreSession(phone, session));
      log := log + [StoreSession(phone, session)];
    }

    /** Persist the account session, then advance the row. */
    method FinishLogin(id: string, session: Option<string>, clearSession: bool, at: Moment) returns (r: Response)
      requires Valid() && id in sessions
      modifies this
      ensures Valid()
      ensures var outcome := Finished(old(sessions)[id], id, session, clearSession, at);
              log == old(log) + outcome.writes && r == outcome.response
      ensures accounts == if Captured(session) && at.stillUnlocked then
                            old(accounts)[old(sessions)[id].phone := session]
                          else old(accounts)
      ensures r.Success? <==> Captured(session) && at.stillUnlocked && !IsExpired(old(sessions)[id], at.last)
    {
      if session.None? || session.value == "" {
        return SessionCaptureFailed;
      }
      if !at.stillUnlocked {
        return Locked;
      }
      PersistSession(sessions[id].phone, session.value);
      r := UpdateStatus(id, Authenticated, None, clearSession, at.last);
    }

    /** Verify a login code. */
    method VerifyCode(id: string, reply: CodeReply, at: Moment) returns (r: Response)
      requires Valid()
      modifies this
      ensures Valid()
      ensures var outcome := VerifiedCode(old(Snapshot()), id, reply, at);
              log == old(log) + outcome.writes && r == outcome.response
      ensures old(Orderly(log)) ==> Orderly(log) && Handled(old(Snapshot()), CodeRequest(id, reply, at), Snapshot(), r)
    {
      HandledWell(log, CodeRequest(id, reply, at));
      var row, error := GetSession(id, at.first);
      if row.None? {
        return error;
      }
      if row.value.status != CodeSent {
        return Conflict;
      }
      if !at.unlocked {
        return Locked;
      }
      match reply
      case PasswordNeeded(session) =>
        if session.None? || session.value == "" {
          return SessionCaptureFailed;
        }
        r := UpdateStatus(id, PasswordRequired, session, true, at.last);
      case WrongCode => r := WrongSecret;
      case CodeExpired =>
        DeleteSession(id);
        r := CodeHasExpired;
      case NumberRejected => r := NumberFailure;
      case BadApiCredentials => r := InvalidCredentials;
      case SignedIn(session) => r := FinishLogin(id, session, false, at);
    }

    /** Verify a two-factor password. */
    method VerifyPassword(id: string, reply: PasswordReply, at: Moment) returns (r: Response)
      requires Valid()
      modifies this
      ensures Valid()
      ensures var outcome := VerifiedPassword(old(Snapshot()), id, reply, at);
              log == old(log) + outcome.writes && r == outcome.response
      ensures old(Orderly(log)) ==>
                Orderly(log) && Handled(old(Snapshot()), PasswordRequest(id, reply, at), Snapshot(), r)
    {
      HandledWell(log, PasswordRequest(id, reply, at));
      var row, error := GetSession(id, at.first);
      if row.None? {
        return error;
      }
      if row.value.status != PasswordRequired {
        return Conflict;
      }
      if row.value.telegramSession.None? || row.value.telegramSession.value == "" {
        return MissingSession;
      }
      if !at.unlocked {
        return Locked;
      }
      match reply
      case WrongPassword => r := WrongSecret;
      case NumberBlocked => r := NumberFailure;
      case BadCredentials => r := InvalidCredentials;
      case Accepted(session) => r := FinishLogin(id, session, true, at);
    }

    /** A run of requests, one at a time. */
    method Serve(requests: seq<Request>) returns (responses: seq<Response>)
      requires Valid()
      modifies this
      ensures Valid() && log == RunLog(old(log), requests) && responses == Responses(old(log), requests)
      ensures old(Orderly(log)) ==> Orderly(log) && RowsFit(Snapshot())
    {
      if Orderly(log) {
        RunIsOrderly(log, requests);
        OrderlyFits(RunLog(log, requests));
      }
      responses := [];
      for k := 0 to |requests|
        invariant Valid() && log == RunLog(old(log), requests[..k]) && responses == Responses(old(log), requests[..k])
      {
        var response;
        match requests[k] {
          case StartRequest(id, phone, sent, now) => response := StartAuth(id, phone, sent, now);
          case CodeRequest(id, reply, at) => response := VerifyCode(id, reply, at);
          case PasswordRequest(id, reply, at) => response := VerifyPassword(id, reply, at);
        }
        assert requests[..k + 1][..k] == requests[..k];
        responses := responses + [response];
      }
      assert requests[..|requests|] == requests;
    }
  }

  // ----- one request -----

  /** Telegram handed over a session string for the row, and both lock tests passed. */
  predicate Captures(t: Tables, r: Request) {
    match r
    case StartRequest(_, _, _, _) => false
    case CodeRequest(id, reply, at) =>
      && id in t.sessions && at.first < t.sessions[id].expiresAt && t.sessions[id].status == CodeSent
      && at.unlocked && at.stillUnlocked && reply.SignedIn? && reply.session.Some? && reply.session.value != ""
    case PasswordRequest(id, reply, at) =>
      && id in t.sessions && at.first < t.sessions[id].expiresAt && t.sessions[id].status == PasswordRequired
      && at.unlocked && at.stillUnlocked && reply.Accepted? && reply.session.Some? && reply.session.value != ""
  }

  function CapturedSession(t: Tables, r: Request): string
    requires Captures(t, r)
  {
    if r.CodeRequest? then r.codeReply.session.value else r.passwordReply.session.value
  }

  lemma TwoWrites(t: Tables, a: Write, b: Write)
    ensures AfterWrites(t, [a]) == AfterWrite(t, a)
    ensures AfterWrites(t, [a, b]) == AfterWrite(AfterWrite(t, a), b)
  {
    ReplayAppend(t, [], a);
    ReplayAppend(t, [a], b);
    assert [] + [a] == [a] && [a] + [b] == [a, b];
  }

  /** What the tables hold, seen from one row: code_sent rows hold no session string, password_required
      rows a non-empty one, authenticated rows none, and their phone has a stored account session. */
  ghost predicate RowFits(t: Tables, row: Session) {
    match row.status
    case CodeSent => row.telegramSession == None
    case PasswordRequired => row.telegramSession.Some? && row.telegramSession.value != ""
    case Authenticated =>
      && row.telegramSession == None && row.phone in t.accounts
      && t.accounts[row.phone].Some? && t.accounts[row.phone].value != ""
  }

  ghost predicate RowsFit(t: Tables) {
    forall id | id in t.sessions :: RowFits(t, t.sessions[id])
  }

  /** When a request succeeds. */
  predicate Succeeds(t: Tables, r: Request) {
    match r
    case StartRequest(id, _, sent, _) => sent && id !in t.sessions
    case CodeRequest(id, reply, at) =>
      && id in t.sessions && at.first < t.sessions[id].expiresAt && at.last < t.sessions[id].expiresAt
      && t.sessions[id].status == CodeSent && at.unlocked
      && ((reply.SignedIn? && at.stillUnlocked) || reply.PasswordNeeded?)
      && reply.session.Some? && reply.session.value != ""
    case PasswordRequest(id, reply, at) => Captures(t, r) && at.last < t.sessions[id].expiresAt
  }

  function StatusReached(r: Request): Status {
    if r.StartRequest? then CodeSent
    else if r.CodeRequest? && r.codeReply.PasswordNeeded? then PasswordRequired
    else Authenticated
  }

  /** The writes of one request, replayed. */
  function AfterRequest(t: Tables, r: Request): Tables {
    AfterWrites(t, Answer(t, r).writes)
  }

  lemma UpdatedEffect(t: Tables, id: string, status: Status, session: Option<string>, update: bool, now: int)
    requires id in t.sessions
    ensures var row := t.sessions[id];
            AfterWrites(t, Updated(row, id, status, session, update, now).writes) ==
            if IsExpired(row, now) then t.(sessions := t.sessions - {id})
            else t.(sessions := t.sessions[id := row.(status := status, telegramSession := if update then session
                                                      else row.telegramSession)])
  {
    TwoWrites(t, SetStatus(id, status, session, update), DeleteRow(id));
    Overwritten(t.sessions, id, AfterWrite(t, SetStatus(id, status, session, update)).sessions[id]);
  }

  lemma Overwritten(m: map<string, Session>, id: string, row: Session)
    ensures m[id := row] - {id} == m - {id}
  {
  }

  lemma PersistingEffect(t: Tables, phone: string, session: string)
    ensures AfterWrites(t, Persisting(phone, session)) == t.(accounts := t.accounts[phone := Some(session)])
  {
    TwoWrites(t, UpsertAccount(phone), StoreSession(phone, session));
    assert t.accounts[phone := None][phone := Some(session)] == t.accounts[phone := Some(session)];
  }

  lemma FinishedEffect(t: Tables, id: string, session: string, clear: bool, at: Moment)
    requires id in t.sessions && session != "" && at.stillUnlocked
    ensures var row := t.sessions[id];
            AfterWrites(t, Finished(row, id, Some(session), clear, at).writes) ==
            AfterWrites(t.(accounts := t.accounts[row.phone := Some(session)]),
                        Updated(row, id, Authenticated, None, clear, at.last).writes)
  {
    var row := t.sessions[id];
    PersistingEffect(t, row.phone, session);
    ReplayConcat(t, Persisting(row.phone, session), Updated(row, id, Authenticated, None, clear, at.last).writes);
  }

  /** A captured session is stored even when the final check then finds the row expired, so it is
      stored before the row advances; nothing else ever changes a stored account session. */
  lemma StoresExactlyCaptured(t: Tables, r: Request)
    requires RowsFit(t)
    ensures AfterRequest(t, r).accounts ==
            if Captures(t, r) then t.accounts[t.sessions[r.id].phone := Some(CapturedSession(t, r))] else t.accounts
    ensures Captures(t, r) ==>
              var writes := Answer(t, r).writes;
              |writes| > 2 && writes[..2] == Persisting(t.sessions[r.id].phone, CapturedSession(t, r)) &&
                  writes[2].SetStatus?
    ensures Answer(t, r).response == Success(Authenticated) ==>
              Captures(t, r) && AfterRequest(t, r).accounts[t.sessions[r.id].phone] == Some(CapturedSession(t, r))
  {
    EffectOn(t, r);
  }

  /** Exactly when a request succeeds, and what it has reached then; a session that is expired at the
      final check never succeeds, and the missing-session error never arises. */
  lemma SucceedsExactly(t: Tables, r: Request)
    requires RowsFit(t)
    ensures var response := Answer(t, r).response;
            && (response.Success? <==> Succeeds(t, r))
            && (response.Success? ==> response.status == StatusReached(r))
            && response != MissingSession
  {
  }

  /** The row a request names ends up advanced, gone or as it was; every other row is untouched. */
  lemma RowsAfterRequest(t: Tables, r: Request, id: string)
    requires RowsFit(t)
    ensures var after := AfterRequest(t, r).sessions;
            && (id != r.id ==> (id in after <==> id in t.sessions) && (id in after ==> after[id] == t.sessions[id]))
            && (id == r.id && Succeeds(t, r) ==> id in after && after[id].status == StatusReached(r))
            && (id == r.id && Succeeds(t, r) && StatusReached(r) == PasswordRequired ==>
                  after[id].telegramSession == r.codeReply.session)
            && (id == r.id && !Succeeds(t, r) && id in after ==> id in t.sessions && after[id] == t.sessions[id])
  {
    EffectOn(t, r);
  }

  /** What a request and its answer mean for the tables `t` before and `u` after it. */
  ghost predicate Handled(t: Tables, r: Request, u: Tables, response: Response) {
    && (response.Success? <==> Succeeds(t, r))
    && (response.Success? ==>
          response.status == StatusReached(r) && r.id in u.sessions && u.sessions[r.id].status == response.status)
    && (!response.Success? && r.id in u.sessions ==> r.id in t.sessions && u.sessions[r.id] == t.sessions[r.id])
    && u.accounts == (if Captures(t, r) then t.accounts[t.sessions[r.id].phone := Some(CapturedSession(t, r))]
                      else t.accounts)
  }

  lemma HandledWell(log: seq<Write>, r: Request)
    ensures var outcome := Answer(Replay(log), r);
            Orderly(log) ==>
              && Orderly(log + outcome.writes)
              && Handled(Replay(log), r, Replay(log + outcome.writes), outcome.response)
  {
    if Orderly(log) {
      OrderlyFits(log);
      AnswerOrderly(log, r);
      ReplayConcat(EMPTY_TABLES, log, Answer(Replay(log), r).writes);
      SucceedsExactly(Replay(log), r);
      RowsAfterRequest(Replay(log), r, r.id);
      StoresExactlyCaptured(Replay(log), r);
    }
  }

  /** The tables after a request, in one step. */
  function Effect(t: Tables, r: Request): Tables {
    var stored := if Captures(t, r) then t.accounts[t.sessions[r.id].phone := Some(CapturedSession(t, r))]
        else t.accounts;
    Tables(
      if r.StartRequest? then
        if Succeeds(t, r) then t.sessions[r.id := Session(r.phone, CodeSent, r.now + SESSION_TTL_SECONDS, None)]
            else t.sessions
      else if Succeeds(t, r) then
        t.sessions[r.id := t.sessions[r.id].(status := StatusReached(r),
          telegramSession := if StatusReached(r) == PasswordRequired then r.codeReply.session else None)]
      else if Answer(t, r).response in {Expired, CodeHasExpired} then t.sessions - {r.id}
      else t.sessions,
      stored)
  }

  lemma EffectOn(t: Tables, r: Request)
    requires RowsFit(t)
    ensures AfterRequest(t, r) == Effect(t, r)
  {
    match r
    case StartRequest(id, phone, sent, now) =>
      TwoWrites(t, CreateRow(id, phone, now + SESSION_TTL_SECONDS), DeleteRow(id));
    case CodeRequest(id, reply, at) => CodeEffect(t, id, reply, at);
    case PasswordRequest(id, reply, at) => PasswordEffect(t, id, reply, at);
  }

  lemma CodeEffect(t: Tables, id: string, reply: CodeReply, at: Moment)
    requires RowsFit(t)
    ensures var r := CodeRequest(id, reply, at); AfterRequest(t, r) == Effect(t, r)
  {
    TwoWrites(t, DeleteRow(id), DeleteRow(id));
    var r := CodeRequest(id, reply, at);
    if Captures(t, r) {
      FinishedEffect(t, id, reply.session.value, false, at);
      UpdatedEffect(t.(accounts := t.accounts[t.sessions[id].phone := reply.session]), id, Authenticated, None, false,
                    at.last);
    } else if id in t.sessions && reply.PasswordNeeded? {
      UpdatedEffect(t, id, PasswordRequired, reply.session, true, at.last);
    }
  }

  lemma PasswordEffect(t: Tables, id: string, reply: PasswordReply, at: Moment)
    requires RowsFit(t)
    ensures var r := PasswordRequest(id, reply, at); AfterRequest(t, r) == Effect(t, r)
  {
    TwoWrites(t, DeleteRow(id), DeleteRow(id));
    var r := PasswordRequest(id, reply, at);
    if Captures(t, r) {
      FinishedEffect(t, id, reply.session.value, true, at);
      UpdatedEffect(t.(accounts := t.accounts[t.sessions[id].phone := reply.session]), id, Authenticated, None, true,
                    at.last);
    }
  }

  // ----- every run -----

  /** The strict moves of a status. */
  predicate Forward(a: Status, b: Status) {
    (a == CodeSent && b != CodeSent) || (a == PasswordRequired && b == Authenticated)
  }

  /** What a write of a login run may be, after the writes `before`: rows start out as code_sent, move
      strictly forward, take a session string when a password is required, and become authenticated
      only by the write right after the one that stored their account session. */
  ghost predicate Permitted(before: seq<Write>, w: Write) {
    var t := Replay(before);
    match w
    case CreateRow(id, _, _) => id !in t.sessions
    case SetStatus(id, status, session, update) =>
      && id in t.sessions && Forward(t.sessions[id].status, status)
      && (status == PasswordRequired ==> update && Captured(session))
      && (status == Authenticated ==>
            && (if update then session == None else t.sessions[id].telegramSession == None)
            && JustStored(before, t.sessions[id].phone))
    case DeleteRow(id) => id in t.sessions
    case UpsertAccount(_) => true
    case StoreSession(phone, session) => session != "" && phone in t.accounts
  }

  /** The last write stored a session string for this phone. */
  ghost predicate JustStored(before: seq<Write>, phone: string) {
    && before != [] && before[|before| - 1].StoreSession?
    && before[|before| - 1].phone == phone && before[|before| - 1].session != ""
  }

  ghost predicate Orderly(log: seq<Write>) {
    log == [] || (Orderly(log[..|log| - 1]) && Permitted(log[..|log| - 1], log[|log| - 1]))
  }

  lemma OrderlyAppend(log: seq<Write>, w: Write)
    requires Orderly(log) && Permitted(log, w)
    ensures Orderly(log + [w])
  {
    assert (log + [w])[..|log|] == log;
  }

  /** Every row of tables reached by permitted writes fits. */
  lemma {:induction false} OrderlyFits(log: seq<Write>)
    requires Orderly(log)
    ensures RowsFit(Replay(log))
  {
    if log != [] {
      OrderlyFits(log[..|log| - 1]);
      PermittedFits(log[..|log| - 1], log[|log| - 1]);
    }
  }

  lemma PermittedFits(before: seq<Write>, w: Write)
    requires Orderly(before) && RowsFit(Replay(before)) && Permitted(before, w)
    ensures RowsFit(AfterWrite(Replay(before), w))
  {
    var t := Replay(before);
    if w.SetStatus? && w.status == Authenticated {
      var last := before[|before| - 1];
      assert t == AfterWrite(Replay(before[..|before| - 1]), last);
      assert t.accounts[t.sessions[w.id].phone] == Some(last.session);
    }
  }

  lemma UpdateOrderly(log: seq<Write>, id: string, status: Status, session: Option<string>, update: bool, now: int)
    requires Orderly(log) && Permitted(log, SetStatus(id, status, session, update))
    ensures Orderly(log + Updated(Replay(log).sessions[id], id, status, session, update, now).writes)
  {
    var w := SetStatus(id, status, session, update);
    OrderlyAppend(log, w);
    ReplayAppend(EMPTY_TABLES, log, w);
    OrderlyDelete(log + [w], id);
    assert log + [w] + [DeleteRow(id)] == log + [w, DeleteRow(id)];
  }

  lemma OrderlyDelete(log: seq<Write>, id: string)
    requires Orderly(log) && id in Replay(log).sessions
    ensures Orderly(log + [DeleteRow(id)])
  {
    OrderlyAppend(log, DeleteRow(id));
  }

  lemma Regroup(log: seq<Write>, a: Write, b: Write, rest: seq<Write>)
    ensures log + [a] + [b] + rest == log + ([a, b] + rest)
  {
  }

  lemma FinishOrderly(log: seq<Write>, id: string, session: Option<string>, clear: bool, at: Moment)
    requires Orderly(log) && id in Replay(log).sessions && Replay(log).sessions[id].status != Authenticated
    requires clear || Replay(log).sessions[id].telegramSession == None
    ensures Orderly(log + Finished(Replay(log).sessions[id], id, session, clear, at).writes)
  {
    var row := Replay(log).sessions[id];
    if !Captured(session) || !at.stillUnlocked {
      assert log + [] == log;
    } else {
      var upsert, store := UpsertAccount(row.phone), StoreSession(row.phone, session.value);
      OrderlyAppend(log, upsert);
      ReplayAppend(EMPTY_TABLES, log, upsert);
      OrderlyAppend(log + [upsert], store);
      ReplayAppend(EMPTY_TABLES, log + [upsert], store);
      UpdateOrderly(log + [upsert] + [store], id, Authenticated, None, clear, at.last);
      Regroup(log, upsert, store, Updated(row, id, Authenticated, None, clear, at.last).writes);
    }
  }

  lemma CodeOrderly(log: seq<Write>, id: string, reply: CodeReply, at: Moment)
    requires Orderly(log)
    ensures Orderly(log + VerifiedCode(Replay(log), id, reply, at).writes)
  {
    var t := Replay(log);
    assert log + [] == log;
    OrderlyFits(log);
    if id in t.sessions {
      OrderlyDelete(log, id);
      if t.sessions[id].status == CodeSent {
        if reply.SignedIn? {
          FinishOrderly(log, id, reply.session, false, at);
        } else if reply.PasswordNeeded? && Captured(reply.session) {
          UpdateOrderly(log, id, PasswordRequired, reply.session, true, at.last);
        }
      }
    }
  }

  lemma PasswordOrderly(log: seq<Write>, id: string, reply: PasswordReply, at: Moment)
    requires Orderly(log)
    ensures Orderly(log + VerifiedPassword(Replay(log), id, reply, at).writes)
  {
    var t := Replay(log);
    assert log + [] == log;
    if id in t.sessions {
      OrderlyDelete(log, id);
      if t.sessions[id].status == PasswordRequired && reply.Accepted? {
        FinishOrderly(log, id, reply.session, true, at);
      }
    }
  }

  lemma AnswerOrderly(log: seq<Write>, r: Request)
    requires Orderly(log)
    ensures Orderly(log + Answer(Replay(log), r).writes)
  {
    match r
    case StartRequest(id, phone, sent, now) =>
      assert log + [] == log;
      if sent && id !in Replay(log).sessions {
        OrderlyAppend(log, CreateRow(id, phone, now + SESSION_TTL_SECONDS));
      }
    case CodeRequest(id, reply, at) => CodeOrderly(log, id, reply, at);
    case PasswordRequest(id, reply, at) => PasswordOrderly(log, id, reply, at);
  }

  /** Every write of every run of requests is permitted. */
  lemma {:induction false} RunIsOrderly(log: seq<Write>, requests: seq<Request>)
    requires Orderly(log)
    ensures Orderly(RunLog(log, requests))
  {
    if requests != [] {
      RunIsOrderly(log, requests[..|requests| - 1]);
      AnswerOrderly(RunLog(log, requests[..|requests| - 1]), requests[|requests| - 1]);
    }
  }

  lemma {:induction false} OrderlyPrefix(log: seq<Write>, k: nat)
    requires Orderly(log) && k <= |log|
    ensures Orderly(log[..k])
    ensures k < |log| ==> Permitted(log[..k], log[k]) && Replay(log[..k + 1]) == AfterWrite(Replay(log[..k]), log[k])
  {
    if k == |log| {
      assert log[..k] == log;
    } else {
      var before := log[..|log| - 1];
      if k < |before| {
        OrderlyPrefix(before, k);
        assert before[..k] == log[..k] && before[..k + 1] == log[..k + 1];
      } else {
        assert log[..k] == before && log[..k + 1] == log;
      }
    }
  }

  /** In every run, and between any two writes of it: all rows fit, and the write that makes a row
      authenticated directly follows the one that stores a session string for its phone. */
  lemma EveryRunPersistsFirst(requests: seq<Request>, k: nat)
    requires k < |RunLog([], requests)|
    ensures var log := RunLog([], requests);
            && RowsFit(Replay(log[..k])) && RowsFit(Replay(log))
            && Permitted(log[..k], log[k])
            && (log[k].SetStatus? && log[k].status == Authenticated ==>
                  && k > 0 && log[k - 1].StoreSession? && log[k - 1].session != ""
                  && log[k].id in Replay(log[..k]).sessions &&
                      log[k - 1].phone == Replay(log[..k]).sessions[log[k].id].phone)
  {
    var log := RunLog([], requests);
    RunIsOrderly([], requests);
    OrderlyPrefix(log, k);
    OrderlyFits(log[..k]);
    OrderlyFits(log);
  }

  /** The same row, unchanged in status or further along. */
  ghost predicate Follows(a: Session, b: Session) {
    && a.phone == b.phone && a.expiresAt == b.expiresAt
    && (a.status == Authenticated ==> b.status == Authenticated)
    && (a.status == PasswordRequired ==> b.status != CodeSent)
  }

  lemma WriteMovesForward(before: seq<Write>, w: Write, id: string)
    requires Permitted(before, w) && id in AfterWrite(Replay(before), w).sessions && !(w.CreateRow? && w.id == id)
    ensures id in Replay(before).sessions &&
            Follows(Replay(before).sessions[id], AfterWrite(Replay(before), w).sessions[id])
  {
  }

  /** The row `id` after the first `k` writes. */
  ghost function RowAt(log: seq<Write>, k: nat, id: string): Option<Session>
    requires k <= |log|
  {
    if id in Replay(log[..k]).sessions then Some(Replay(log[..k]).sessions[id]) else None
  }

  lemma StepMovesForward(log: seq<Write>, k: nat, id: string)
    requires Orderly(log) && k < |log| && RowAt(log, k + 1, id).Some? && !(log[k].CreateRow? && log[k].id == id)
    ensures RowAt(log, k, id).Some? && Follows(RowAt(log, k, id).value, RowAt(log, k + 1, id).value)
  {
    OrderlyPrefix(log, k);
    WriteMovesForward(log[..k], log[k], id);
  }

  /** A status never moves back: a row seen at two points of a run, not created anew in between, has
      the same phone and expiry and the same or a later status. */
  lemma {:induction false} RowsOnlyMoveForward(log: seq<Write>, j: nat, k: nat, id: string)
    requires Orderly(log) && j <= k <= |log| && RowAt(log, j, id).Some? && RowAt(log, k, id).Some?
    requires forall i | j <= i < k :: !(log[i].CreateRow? && log[i].id == id)
    ensures Follows(RowAt(log, j, id).value, RowAt(log, k, id).value)
    decreases k
  {
    if j < k {
      StepMovesForward(log, k - 1, id);
      RowsOnlyMoveForward(log, j, k - 1, id);
    }
  }

  // ----- lifetime -----

  /** Row `id` was created by request `j` of the run, and expires 900 seconds after it. */
  ghost predicate CreatedBy(requests: seq<Request>, j: int, id: string, row: Session) {
    0 <= j < |requests| && requests[j] == StartRequest(id, row.phone, true, row.expiresAt - 900)
  }

  ghost predicate RowsComeFromStarts(requests: seq<Request>, t: Tables) {
    forall id | id in t.sessions :: exists j :: CreatedBy(requests, j, id, t.sessions[id])
  }

  lemma CreatedEarlier(before: seq<Request>, r: Request, id: string, row: Session, was: Session)
    requires exists j :: CreatedBy(before, j, id, was)
    requires row.phone == was.phone && row.expiresAt == was.expiresAt
    ensures exists j :: CreatedBy(before + [r], j, id, row)
  {
    var j :| CreatedBy(before, j, id, was);
    assert CreatedBy(before + [r], j, id, row);
  }

  lemma RequestKeepsOrigins(before: seq<Request>, t: Tables, r: Request)
    requires RowsComeFromStarts(before, t) && RowsFit(t)
    ensures RowsComeFromStarts(before + [r], AfterRequest(t, r))
  {
    EffectOn(t, r);
    var u := AfterRequest(t, r);
    forall id | id in u.sessions ensures exists j :: CreatedBy(before + [r], j, id, u.sessions[id]) {
      if id in t.sessions {
        CreatedEarlier(before, r, id, u.sessions[id], t.sessions[id]);
      } else {
        assert CreatedBy(before + [r], |before|, id, u.sessions[id]);
      }
    }
  }

  lemma {:induction false} RunKeepsOrigins(requests: seq<Request>)
    ensures RowsComeFromStarts(requests, Replay(RunLog([], requests)))
  {
    if requests != [] {
      var before, r := requests[..|requests| - 1], requests[|requests| - 1];
      var log := RunLog([], before);
      RunKeepsOrigins(before);
      RunIsOrderly([], before);
      OrderlyFits(log);
      RequestKeepsOrigins(before, Replay(log), r);
      ReplayConcat(EMPTY_TABLES, log, Answer(Replay(log), r).writes);
      assert requests == before + [r];
    }
  }

  lemma SuccessBeforeExpiry(t: Tables, r: Request)
    requires RowsFit(t) && !r.StartRequest? && Answer(t, r).response.Success?
    ensures r.id in t.sessions && r.at.first < t.sessions[r.id].expiresAt && r.at.last < t.sessions[r.id].expiresAt
  {
    SucceedsExactly(t, r);
  }

  /** Request `j` started the session `id`, less than 900 seconds before the time `at`. */
  ghost predicate StartedWithin(requests: seq<Request>, j: int, id: string, at: int) {
    && 0 <= j < |requests| && requests[j].StartRequest? && requests[j].id == id && requests[j].sent
    && at < requests[j].now + 900
  }

  /** After any run a code or password request only succeeds for a session that an earlier request
      started less than 900 seconds before both of its checks. */
  lemma SuccessIsInTime(requests: seq<Request>, r: Request)
    requires !r.StartRequest? && Answer(Replay(RunLog([], requests)), r).response.Success?
    ensures exists j :: StartedWithin(requests, j, r.id, r.at.first) && StartedWithin(requests, j, r.id, r.at.last)
  {
    var log := RunLog([], requests);
    RunIsOrderly([], requests);
    OrderlyFits(log);
    SuccessBeforeExpiry(Replay(log), r);
    RunKeepsOrigins(requests);
    var j :| CreatedBy(requests, j, r.id, Replay(log).sessions[r.id]);
    assert StartedWithin(requests, j, r.id, r.at.first) && StartedWithin(requests, j, r.id, r.at.last);
  }
}
