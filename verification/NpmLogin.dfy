/** The web login of the npm registry (crates/pier-core/src/api/npm_web_login.rs): sessions, tokens and expiry. */
module NpmLogin {
  import opened Text
  import opened Crypto

  type SessionId = nat
  type TokenId = nat

  datatype Status = Pending | Authorized | Expired

  datatype Session = Session(status: Status, expiresAt: int, token: Option<TokenId>, secret: Option<string>)

  /** The session rows, and the tokens minted with the text each was minted for. */
  datatype World = World(sessions: map<SessionId, Session>, tokens: map<TokenId, string>)

  const EMPTY := World(map[], map[])

  const SESSION_TTL_SECONDS := 600

  /** The cipher and the key of the process. */
  datatype Env = Env(suite: Suite, key: Key)

  /** What the database does during one request. */
  datatype Db = Db(loads: bool, writes: bool, commits: bool)

  /** A token drawn for a request, with the nonce its text is sealed with. */
  datatype Draft = Draft(token: TokenId, text: string, nonce: Nonce)

  /** One request or sweep, with its own clock reading, taken before the database lock. */
  datatype Step =
    | Begin(id: SessionId, clock: int, inserts: bool)
    | Poll(id: SessionId, clock: int, db: Db)
    | Authorize(id: SessionId, clock: int, draft: Draft, db: Db)
    | Sweep(clock: int, deletes: bool)

  datatype Reply =
    | Opened | Waiting | Delivered(text: string) | Gone | NotFound
    | Issued(text: string) | TooLate | Conflict | Swept | Failed

  function Stay(w: World, r: Reply): (World, Reply) { (w, r) }

  // ----- steps ----------------------------------------------------------------------------

  function BeginNext(w: World, id: SessionId, clock: int, inserts: bool): (World, Reply) {
    if !inserts || id in w.sessions then Stay(w, Failed)
    else (w.(sessions := w.sessions[id := Session(Pending, clock + SESSION_TTL_SECONDS, None, None)]), Opened)
  }

  /** A failed write is ignored when the session has expired, and rolls back otherwise. */
  function PollNext(e: Env, w: World, id: SessionId, clock: int, db: Db): (World, Reply) {
    if !db.loads then Stay(w, Failed)
    else if id !in w.sessions then Stay(w, NotFound)
    else
      var s := w.sessions[id];
      if clock > s.expiresAt then
        if !db.commits then Stay(w, Failed)
        else if !db.writes then Stay(w, Gone)
        else (w.(sessions := w.sessions[id := s.(status := Expired, secret := None)]), Gone)
      else if !s.status.Authorized? then Stay(w, Waiting)
      else if s.secret.None? then Stay(w, Gone)
      else match Decrypt(e.suite, s.secret.value, e.key)
           case Err(_) => Stay(w, Failed)
           case Ok(text) =>
             if !db.writes || !db.commits then Stay(w, Failed)
             else (w.(sessions := w.sessions[id := s.(secret := None)]), Delivered(text))
  }

  function AuthorizeNext(e: Env, w: World, id: SessionId, clock: int, d: Draft, db: Db): (World, Reply) {
    match Encrypt(e.suite, d.text, e.key, d.nonce)
    case None => Stay(w, Failed)
    case Some(secret) =>
      if !db.loads then Stay(w, Failed)
      else if id !in w.sessions then Stay(w, NotFound)
      else
        var s := w.sessions[id];
        if clock > s.expiresAt then Stay(w, TooLate)
        else if !s.status.Pending? then Stay(w, Conflict)
        else if !db.writes || !db.commits || d.token in w.tokens then Stay(w, Failed)
        else (World(w.sessions[id := s.(status := Authorized, token := Some(d.token), secret := Some(secret))],
                    w.tokens[d.token := d.text]), Issued(d.text))
  }

  function Unexpired(sessions: map<SessionId, Session>, clock: int): map<SessionId, Session> {
    map id | id in sessions && sessions[id].expiresAt >= clock :: sessions[id]
  }

  function Next(e: Env, w: World, step: Step): (World, Reply) {
    match step
    case Begin(id, clock, inserts) => BeginNext(w, id, clock, inserts)
    case Poll(id, clock, db) => PollNext(e, w, id, clock, db)
    case Authorize(id, clock, d, db) => AuthorizeNext(e, w, id, clock, d, db)
    case Sweep(clock, deletes) =>
      if deletes then (w.(sessions := Unexpired(w.sessions, clock)), Swept) else Stay(w, Failed)
  }

  // ----- the handlers, updating the tables ------------------------------------------------

  class Tables {
    const env: Env
    var sessions: map<SessionId, Session>
    var tokens: map<TokenId, string>

    function Model(): World
      reads this
    {
      World(sessions, tokens)
    }

    constructor (e: Env)
      ensures Model() == EMPTY && env == e
    {
      env, sessions, tokens := e, map[], map[];
    }

    method BeginLogin(id: SessionId, clock: int, inserts: bool) returns (r: Reply)
      modifies this
      ensures (Model(), r) == Next(env, old(Model()), Begin(id, clock, inserts))
    {
      var expiresAt := clock + SESSION_TTL_SECONDS;
      if !inserts || id in sessions {
        return Failed;
      }
      sessions := sessions[id := Session(Pending, expiresAt, None, None)];
      return Opened;
    }

    /** Reads the row and, in the same transaction, clears the text it hands out. */
    method PollDone(id: SessionId, clock: int, db: Db) returns (r: Reply)
      modifies this
      ensures (Model(), r) == Next(env, old(Model()), Poll(id, clock, db))
    {
      if !db.loads {
        return Failed;
      }
      if id !in sessions {
        return NotFound;
      }
      var s := sessions[id];
      if clock > s.expiresAt {
        if !db.commits {
          return Failed;
        }
        if db.writes {
          sessions := sessions[id := s.(status := Expired, secret := None)];
        }
        return Gone;
      }
      if s.status != Authorized {
        return Waiting;
      }
      if s.secret.None? {
        return Gone;
      }
      var text := Decrypt(env.suite, s.secret.value, env.key);
      if text.Err? || !db.writes || !db.commits {
        return Failed;
      }
      sessions := sessions[id := s.(secret := None)];
      return Delivered(text.value);
    }

    /** The token and its sealed text are made before the row is looked at. */
    method AuthorizeSession(id: SessionId, clock: int, d: Draft, db: Db) returns (r: Reply)
      modifies this
      ensures (Model(), r) == Next(env, old(Model()), Authorize(id, clock, d, db))
    {
      var secret := Encrypt(env.suite, d.text, env.key, d.nonce);
      if secret.None? || !db.loads {
        return Failed;
      }
      if id !in sessions {
        return NotFound;
      }
      var s := sessions[id];
      if clock > s.expiresAt {
        return TooLate;
      }
      if s.status != Pending {
        return Conflict;
      }
      if !db.writes || !db.commits || d.token in tokens {
        return Failed;
      }
      tokens := tokens[d.token := d.text];
      sessions := sessions[id := s.(status := Authorized, token := Some(d.token), secret := secret)];
      return Issued(d.text);
    }

    method SweepOnce(clock: int, deletes: bool) returns (r: Reply)
      modifies this
      ensures (Model(), r) == Next(env, old(Model()), Sweep(clock, deletes))
    {
      if !deletes {
        return Failed;
      }
      sessions := map id | id in sessions && sessions[id].expiresAt >= clock :: sessions[id];
      return Swept;
    }
  }

  // ----- runs -----------------------------------------------------------------------------

  /** The tables after the first n steps. */
  function After(e: Env, steps: seq<Step>, n: nat): World
    requires n <= |steps|
  {
    if n == 0 then EMPTY else Next(e, After(e, steps, n - 1), steps[n - 1]).0
  }

  function ReplyAt(e: Env, steps: seq<Step>, n: nat): Reply
    requires n < |steps|
  {
    Next(e, After(e, steps, n), steps[n]).1
  }

  lemma Unfold(e: Env, steps: seq<Step>, n: nat)
    requires n < |steps|
    ensures After(e, steps, n + 1) == Next(e, After(e, steps, n), steps[n]).0
  {
  }

  predicate Begins(step: Step, id: SessionId) { step.Begin? && step.id == id }

  /** Session ids are drawn fresh. */
  predicate FreshIds(steps: seq<Step>) {
    forall i, j | 0 <= i < j < |steps| && steps[i].Begin? :: !Begins(steps[j], steps[i].id)
  }

  /** The session was opened by step k and still lives by its expiry. */
  lemma {:induction false} WasBegun(e: Env, steps: seq<Step>, n: nat, id: SessionId) returns (k: nat)
    requires n <= |steps| && id in After(e, steps, n).sessions
    ensures k < n && Begins(steps[k], id) && ReplyAt(e, steps, k).Opened?
    ensures After(e, steps, n).sessions[id].expiresAt == steps[k].clock + SESSION_TTL_SECONDS
  {
    hide After, Decrypt, Encrypt;
    assert n > 0 by { NothingAtFirst(e, steps); }
    Unfold(e, steps, n - 1);
    var w := After(e, steps, n - 1);
    if id in w.sessions {
      k := WasBegun(e, steps, n - 1, id);
    } else {
      k := n - 1;
    }
  }

  lemma NothingAtFirst(e: Env, steps: seq<Step>)
    ensures After(e, steps, 0) == EMPTY
  {
  }

  /** No token can be minted for the session. */
  predicate Closed(w: World, id: SessionId) { id in w.sessions ==> !w.sessions[id].status.Pending? }

  /** Nothing can be delivered for it either. */
  predicate Spent(w: World, id: SessionId) { Closed(w, id) && (id in w.sessions ==> w.sessions[id].secret.None?) }

  lemma StepStaysClosed(e: Env, w: World, step: Step, id: SessionId)
    requires !Begins(step, id)
    ensures Closed(w, id) ==> Closed(Next(e, w, step).0, id)
    ensures Spent(w, id) ==> Spent(Next(e, w, step).0, id)
  {
    hide Decrypt, Encrypt;
  }

  lemma {:induction false} StaysClosed(e: Env, steps: seq<Step>, i: nat, j: nat, id: SessionId)
    requires i <= j <= |steps| && forall k | i <= k < j :: !Begins(steps[k], id)
    ensures Closed(After(e, steps, i), id) ==> Closed(After(e, steps, j), id)
    ensures Spent(After(e, steps, i), id) ==> Spent(After(e, steps, j), id)
    decreases j
  {
    hide After, Next, Closed, Spent;
    if i < j {
      StaysClosed(e, steps, i, j - 1, id);
      StepStaysClosed(e, After(e, steps, j - 1), steps[j - 1], id);
      Unfold(e, steps, j - 1);
    }
  }

  lemma NotBegunAgain(e: Env, steps: seq<Step>, i: nat, id: SessionId)
    requires FreshIds(steps) && i < |steps| && id in After(e, steps, i).sessions
    ensures forall k | i <= k < |steps| :: !Begins(steps[k], id)
  {
    hide After, Next;
    var b := WasBegun(e, steps, i, id);
    assert steps[b].Begin?;
  }

  /** At most one token is minted for a session. */
  lemma OneTokenPerSession(e: Env, steps: seq<Step>, i: nat, j: nat)
    requires FreshIds(steps) && i < j < |steps| && steps[i].Authorize? && steps[j].Authorize?
        && steps[i].id == steps[j].id
    requires ReplyAt(e, steps, i).Issued?
    ensures !ReplyAt(e, steps, j).Issued?
  {
    hide After, Encrypt, Decrypt;
    var id := steps[i].id;
    NotBegunAgain(e, steps, i, id);
    Unfold(e, steps, i);
    assert Closed(After(e, steps, i + 1), id);
    StaysClosed(e, steps, i + 1, j, id);
  }

  /** At most one poll of a session is given a token. */
  lemma OneDelivery(e: Env, steps: seq<Step>, i: nat, j: nat)
    requires FreshIds(steps) && i < j < |steps| && steps[i].Poll? && steps[j].Poll? && steps[i].id == steps[j].id
    requires ReplyAt(e, steps, i).Delivered?
    ensures !ReplyAt(e, steps, j).Delivered?
  {
    hide After, Encrypt, Decrypt;
    var id := steps[i].id;
    NotBegunAgain(e, steps, i, id);
    Unfold(e, steps, i);
    assert Spent(After(e, steps, i + 1), id);
    StaysClosed(e, steps, i + 1, j, id);
  }

  /** Nothing is delivered or minted by a request whose clock has passed the end of the session. */
  lemma NothingAfterExpiry(e: Env, steps: seq<Step>, n: nat) returns (k: nat)
    requires n < |steps| && (ReplyAt(e, steps, n).Delivered? || ReplyAt(e, steps, n).Issued?)
    ensures steps[n].Poll? || steps[n].Authorize?
    ensures k < n && Begins(steps[k], steps[n].id) && steps[n].clock <= steps[k].clock + SESSION_TTL_SECONDS
  {
    hide After, Encrypt, Decrypt;
    k := WasBegun(e, steps, n, steps[n].id);
  }

  // ----- what is delivered ----------------------------------------------------------------

  /** The session holds, sealed, exactly this text, and it is that of its token. */
  predicate Holds(e: Env, w: World, id: SessionId, text: string) {
    && id in w.sessions
    && var s := w.sessions[id];
       && s.status.Authorized? && s.secret.Some? && Decrypt(e.suite, s.secret.value, e.key) == Ok(text)
       && s.token.Some? && s.token.value in w.tokens && w.tokens[s.token.value] == text
  }

  predicate NoncesFit(steps: seq<Step>) {
    forall i | 0 <= i < |steps| && steps[i].Authorize? :: |steps[i].draft.nonce| == NONCE_LENGTH
  }

  lemma IssuedIsHeld(e: Env, w: World, step: Step)
    requires Lawful(e.suite) && step.Authorize? && |step.draft.nonce| == NONCE_LENGTH && Next(e, w, step).1.Issued?
    ensures Holds(e, Next(e, w, step).0, step.id, Next(e, w, step).1.text)
  {
    hide Encrypt, Decrypt, Lawful;
    DecryptUndoesEncrypt(e.suite, step.draft.text, e.key, step.draft.nonce);
  }

  /** A step that authorizes nothing leaves the text it finds, or takes it away. */
  lemma HeldBefore(e: Env, w: World, step: Step, id: SessionId)
    requires id in Next(e, w, step).0.sessions && Next(e, w, step).0.sessions[id].secret.Some?
    requires !(step.Authorize? && step.id == id && Next(e, w, step).1.Issued?)
    ensures id in w.sessions && w.sessions[id] == Next(e, w, step).0.sessions[id]
  {
    hide Encrypt, Decrypt;
  }

  /** A sealed text in a session came from its one authorization. */
  lemma {:induction false} SecretsAreIssued(e: Env, steps: seq<Step>, n: nat, id: SessionId) returns (k: nat)
    requires Lawful(e.suite) && NoncesFit(steps) && n <= |steps|
    requires id in After(e, steps, n).sessions && After(e, steps, n).sessions[id].secret.Some?
    ensures k < n && steps[k].Authorize? && steps[k].id == id && ReplyAt(e, steps, k).Issued?
    ensures Decrypt(e.suite, After(e, steps, n).sessions[id].secret.value, e.key) == Ok(ReplyAt(e, steps, k).text)
  {
    hide After, Next, Decrypt, Lawful;
    assert n > 0 by { NothingAtFirst(e, steps); }
    Unfold(e, steps, n - 1);
    var step := steps[n - 1];
    if step.Authorize? && step.id == id && ReplyAt(e, steps, n - 1).Issued? {
      k := n - 1;
      IssuedIsHeld(e, After(e, steps, n - 1), step);
    } else {
      HeldBefore(e, After(e, steps, n - 1), step, id);
      k := SecretsAreIssued(e, steps, n - 1, id);
    }
  }

  /** A delivered text is the one an earlier authorization of that session issued. */
  lemma DeliveryFollowsAuthorize(e: Env, steps: seq<Step>, n: nat) returns (k: nat)
    requires Lawful(e.suite) && NoncesFit(steps) && n < |steps| && ReplyAt(e, steps, n).Delivered?
    ensures steps[n].Poll? && k < n && steps[k].Authorize? && steps[k].id == steps[n].id
    ensures ReplyAt(e, steps, k) == Issued(ReplyAt(e, steps, n).text)
  {
    hide After, Encrypt, Decrypt, Lawful;
    k := SecretsAreIssued(e, steps, n, steps[n].id);
  }

  // ----- and that it is delivered ---------------------------------------------------------

  /** While no clock passes the end and nothing is delivered, the text stays where it is. */
  lemma StaysHeld(e: Env, w: World, step: Step, id: SessionId, text: string)
    requires Holds(e, w, id, text) && step.clock <= w.sessions[id].expiresAt
    requires step.Poll? && step.id == id ==> !Next(e, w, step).1.Delivered?
    ensures Holds(e, Next(e, w, step).0, id, text)
    ensures Next(e, w, step).0.sessions[id].expiresAt == w.sessions[id].expiresAt
  {
    hide Encrypt, Decrypt;
  }

  predicate DeliversTo(e: Env, steps: seq<Step>, n: nat, id: SessionId)
    requires n < |steps|
  {
    steps[n].Poll? && steps[n].id == id && ReplyAt(e, steps, n).Delivered?
  }

  lemma {:induction false} TextIsKept(e: Env, steps: seq<Step>, i: nat, j: nat, text: string)
    requires Lawful(e.suite) && NoncesFit(steps) && i < j <= |steps| && steps[i].Authorize?
    requires ReplyAt(e, steps, i) == Issued(text)
    requires forall k | i < k < j :: !DeliversTo(e, steps, k, steps[i].id)
    requires steps[i].id in After(e, steps, i).sessions
    requires forall k | i < k < j :: steps[k].clock <= After(e, steps, i).sessions[steps[i].id].expiresAt
    ensures Holds(e, After(e, steps, j), steps[i].id, text)
    ensures After(e, steps, j).sessions[steps[i].id].expiresAt == After(e, steps, i).sessions[steps[i].id].expiresAt
    decreases j
  {
    hide After, Next, Decrypt, Encrypt, Lawful, Holds;
    var id := steps[i].id;
    var w := After(e, steps, j - 1);
    Unfold(e, steps, j - 1);
    if j == i + 1 {
      IssuedIsHeld(e, w, steps[i]);
      IssuedKeepsExpiry(e, w, steps[i]);
    } else {
      TextIsKept(e, steps, i, j - 1, text);
      assert !DeliversTo(e, steps, j - 1, id);
      assert id in w.sessions by { HeldIsThere(e, w, id, text); }
      StaysHeld(e, w, steps[j - 1], id, text);
    }
  }

  lemma HeldIsThere(e: Env, w: World, id: SessionId, text: string)
    requires Holds(e, w, id, text)
    ensures id in w.sessions
  {
  }

  lemma IssuedKeepsExpiry(e: Env, w: World, step: Step)
    requires step.Authorize? && Next(e, w, step).1.Issued? && step.id in w.sessions
    ensures step.id in Next(e, w, step).0.sessions
    ensures Next(e, w, step).0.sessions[step.id].expiresAt == w.sessions[step.id].expiresAt
  {
    hide Encrypt;
  }

  /**
   * After an authorization the first poll that meets a working database gets the token, provided no
   * request or sweep up to it, nor the poll itself, read a clock past the end of the session.
   */
  lemma TimelyPollIsServed(e: Env, steps: seq<Step>, i: nat, j: nat, text: string)
    requires Lawful(e.suite) && NoncesFit(steps) && i < j < |steps| && steps[i].Authorize?
    requires ReplyAt(e, steps, i) == Issued(text)
    requires steps[j].Poll? && steps[j].id == steps[i].id && steps[j].db == Db(true, true, true)
    requires forall k | i < k < j :: !DeliversTo(e, steps, k, steps[i].id)
    requires steps[i].id in After(e, steps, i).sessions
    requires forall k | i < k <= j :: steps[k].clock <= After(e, steps, i).sessions[steps[i].id].expiresAt
    ensures ReplyAt(e, steps, j) == Delivered(text)
  {
    hide After, Decrypt, Encrypt, Lawful;
    TextIsKept(e, steps, i, j, text);
  }

  // ----- every answer ---------------------------------------------------------------------

  /** A login opens a pending session for ten minutes under an unused id, and touches nothing else. */
  lemma BeginOutcome(e: Env, w: World, id: SessionId, clock: int, inserts: bool)
    ensures var (w', r) := Next(e, w, Begin(id, clock, inserts));
            if inserts && id !in w.sessions then
              r == Opened && w'.tokens == w.tokens
              && w'.sessions == w.sessions[id := Session(Pending, clock + 600, None, None)]
            else r == Failed && w' == w
  {
  }

  /**
   * Every poll that reaches the database: no session, not yet authorized, already handed out, past
   * the end, or the text. Only the last two write, and only their own row; a write that is lost
   * withholds the text but not the answer that the session is over.
   */
  lemma PollOutcome(e: Env, w: World, id: SessionId, clock: int, db: Db)
    ensures var (w', r) := Next(e, w, Poll(id, clock, db));
            && w'.tokens == w.tokens
            && (!db.loads ==> r == Failed && w' == w)
            && (db.loads && id !in w.sessions ==> r == NotFound && w' == w)
            && (db.loads && id in w.sessions ==>
                  var s := w.sessions[id];
                  if clock > s.expiresAt then
                    && r == (if db.commits then Gone else Failed)
                    && w'.sessions == (if db.writes && db.commits
                                       then w.sessions[id := Session(Expired, s.expiresAt, s.token, None)]
                                       else w.sessions)
                  else if s.status != Authorized then r == Waiting && w' == w
                  else if s.secret.None? then r == Gone && w' == w
                  else
                    var text := Decrypt(e.suite, s.secret.value, e.key);
                    if text.Ok? && db.writes && db.commits then
                      && r == Delivered(text.value)
                      && w'.sessions == w.sessions[id := Session(Authorized, s.expiresAt, s.token, None)]
                    else r == Failed && w' == w)
  {
    hide Decrypt, Encrypt;
  }

  /** A token is minted exactly for a pending session in time, with both rows written or neither. */
  lemma AuthorizeOutcome(e: Env, w: World, id: SessionId, clock: int, d: Draft, db: Db)
    ensures var (w', r) := Next(e, w, Authorize(id, clock, d, db));
            var secret := Encrypt(e.suite, d.text, e.key, d.nonce);
            var looked := secret.Some? && db.loads;
            var pending := id in w.sessions && clock <= w.sessions[id].expiresAt && w.sessions[id].status == Pending;
            && (r == Issued(d.text) <==>
                  looked && pending && db.writes && db.commits && d.token !in w.tokens)
            && (r == Issued(d.text) ==>
                  && w'.tokens == w.tokens[d.token := d.text]
                  && w'.sessions
                     == w.sessions[id := Session(Authorized, w.sessions[id].expiresAt, Some(d.token), secret)])
            && (r != Issued(d.text) ==> w' == w)
            && (r == NotFound <==> looked && id !in w.sessions)
            && (r == TooLate <==> looked && id in w.sessions && clock > w.sessions[id].expiresAt)
            && (r == Conflict <==> looked && id in w.sessions && clock <= w.sessions[id].expiresAt && !pending)
  {
    hide Decrypt, Encrypt;
  }

  /** A sweep drops exactly the sessions past their end, and no token. */
  lemma SweepOutcome(e: Env, w: World, clock: int, deletes: bool)
    ensures var (w', r) := Next(e, w, Sweep(clock, deletes));
            && w'.tokens == w.tokens && (r == Swept <==> deletes)
            && (forall id :: id in w'.sessions <==>
                  id in w.sessions && (deletes ==> clock <= w.sessions[id].expiresAt))
            && forall id | id in w'.sessions :: w'.sessions[id] == w.sessions[id]
  {
  }

  /** The session waits for its authorization, open until `end`. */
  predicate Awaits(w: World, id: SessionId, end: int) {
    id in w.sessions && w.sessions[id] == Session(Pending, end, None, None)
  }

  predicate Issues(e: Env, steps: seq<Step>, n: nat, id: SessionId)
    requires n < |steps|
  {
    steps[n].Authorize? && steps[n].id == id && ReplyAt(e, steps, n).Issued?
  }

  lemma StaysAwaited(e: Env, w: World, step: Step, id: SessionId, end: int)
    requires Awaits(w, id, end) && step.clock <= end
    requires !(step.Authorize? && step.id == id && Next(e, w, step).1.Issued?)
    ensures Awaits(Next(e, w, step).0, id, end)
  {
    hide Decrypt, Encrypt;
  }

  /**
   * From its begin until somebody authorizes it, and while no clock passes its ten minutes, a session
   * answers every poll that reaches the database with wait.
   */
  lemma WaitsUntilAuthorized(e: Env, steps: seq<Step>, i: nat, j: nat)
    requires i < j < |steps| && steps[i].Begin? && ReplyAt(e, steps, i).Opened?
    requires steps[j].Poll? && steps[j].id == steps[i].id && steps[j].db.loads
    requires forall k | i < k < j :: !Issues(e, steps, k, steps[i].id)
    requires forall k | i < k <= j :: steps[k].clock <= steps[i].clock + 600
    ensures ReplyAt(e, steps, j) == Waiting
  {
    hide After, Decrypt, Encrypt;
    StillAwaited(e, steps, i, j);
  }

  lemma {:induction false} StillAwaited(e: Env, steps: seq<Step>, i: nat, j: nat)
    requires i < j <= |steps| && steps[i].Begin? && ReplyAt(e, steps, i).Opened?
    requires forall k | i < k < j :: !Issues(e, steps, k, steps[i].id)
    requires forall k | i < k < j :: steps[k].clock <= steps[i].clock + 600
    ensures Awaits(After(e, steps, j), steps[i].id, steps[i].clock + 600)
    decreases j
  {
    hide After, Decrypt, Encrypt, Awaits, Next;
    Unfold(e, steps, j - 1);
    if j == i + 1 {
      OpenedAwaits(e, After(e, steps, i), steps[i]);
    } else {
      StillAwaited(e, steps, i, j - 1);
      assert !Issues(e, steps, j - 1, steps[i].id);
      StaysAwaited(e, After(e, steps, j - 1), steps[j - 1], steps[i].id, steps[i].clock + 600);
    }
  }

  lemma OpenedAwaits(e: Env, w: World, step: Step)
    requires step.Begin? && Next(e, w, step).1.Opened?
    ensures Awaits(Next(e, w, step).0, step.id, step.clock + 600)
  {
  }

  /** The text has been handed out, and the session is open until `end`. */
  predicate Handed(w: World, id: SessionId, end: int) {
    && id in w.sessions && w.sessions[id].expiresAt == end
    && w.sessions[id].status == Authorized && w.sessions[id].secret.None?
  }

  lemma StaysHanded(e: Env, w: World, step: Step, id: SessionId, end: int)
    requires Handed(w, id, end) && step.clock <= end
    ensures Handed(Next(e, w, step).0, id, end)
  {
    hide Decrypt, Encrypt;
  }

  /** Once handed out the session is over: while no clock has passed its end, every later poll says so. */
  lemma GoneAfterDelivery(e: Env, steps: seq<Step>, i: nat, j: nat)
    requires i < j < |steps| && steps[i].Poll? && ReplyAt(e, steps, i).Delivered?
    requires steps[i].id in After(e, steps, i).sessions
    requires forall k | i < k < j :: steps[k].clock <= After(e, steps, i).sessions[steps[i].id].expiresAt
    requires steps[j].Poll? && steps[j].id == steps[i].id && steps[j].db.loads && steps[j].db.commits
    ensures ReplyAt(e, steps, j) == Gone
  {
    hide After, Decrypt, Encrypt;
    StillHanded(e, steps, i, j, After(e, steps, i).sessions[steps[i].id].expiresAt);
  }

  lemma {:induction false} StillHanded(e: Env, steps: seq<Step>, i: nat, j: nat, end: int)
    requires i < j <= |steps| && steps[i].Poll? && ReplyAt(e, steps, i).Delivered?
    requires steps[i].id in After(e, steps, i).sessions && After(e, steps, i).sessions[steps[i].id].expiresAt == end
    requires forall k | i < k < j :: steps[k].clock <= end
    ensures Handed(After(e, steps, j), steps[i].id, end)
    decreases j
  {
    hide After, Decrypt, Encrypt, Handed, Next;
    Unfold(e, steps, j - 1);
    if j == i + 1 {
      DeliveredIsHanded(e, After(e, steps, i), steps[i]);
    } else {
      StillHanded(e, steps, i, j - 1, end);
      StaysHanded(e, After(e, steps, j - 1), steps[j - 1], steps[i].id, end);
    }
  }

  lemma DeliveredIsHanded(e: Env, w: World, step: Step)
    requires step.Poll? && Next(e, w, step).1.Delivered? && step.id in w.sessions
    ensures Handed(Next(e, w, step).0, step.id, w.sessions[step.id].expiresAt)
  {
    hide Decrypt;
  }
}
