// The transport: bounded retry with its idempotency gate and its one re-send
// after a 401, uploads built on it, and the chunk loop of a resumable session.
module DriveClient {
  import opened Options
  import opened UploadPlan
  import opened DriveServer

  const MAX_ATTEMPTS: nat := 5

  datatype HttpMethod = GET | POST | PATCH | DELETE

  predicate IsIdempotent(m: HttpMethod) { m == GET || m == DELETE }

  // `maybeApplied` is the error that says the change may or may not have
  // been applied.
  datatype DriveResponse = DriveResponse(ok: bool, status: int, kind: ErrorKind, maybeApplied: bool, id: Id,
                                         located: bool := false)

  const NO_TOKEN := DriveResponse(false, 0, Unauthenticated, false, 0)

  predicate ShouldResendAfter401(alreadyRefreshed: bool, rejected: string, replacement: string) {
    !alreadyRefreshed && replacement != "" && replacement != rejected
  }

  // Whether the call may send its request again after an ambiguous failure.
  predicate Repeats(m: HttpMethod, retryNonIdempotent: bool) { retryNonIdempotent || IsIdempotent(m) }

  // One turn of the retry loop: the token sent, the reply, and what the token
  // source gave in case a 401 made the client ask it (None when that throws).
  datatype Turn = Turn(sent: string, reply: Reply, asked: Option<string>)

  datatype Retry = Retry(attempt: nat, refreshed: bool, token: string)

  datatype Verdict = Again(retry: Retry) | Return(resp: DriveResponse)

  // What a turn leads to.
  function AfterTurn(repeats: bool, r: Retry, turn: Turn): Verdict {
    var attempt, reply := r.attempt + 1, turn.reply;
    if reply.Lost? then
      if repeats && attempt < MAX_ATTEMPTS then Again(r.(attempt := attempt))
      else Return(DriveResponse(false, 0, Transient, !repeats, 0))
    else if IsSuccess(reply.status) then
      Return(DriveResponse(true, reply.status, OtherError, false, reply.id, reply.located))
    else if reply.kind == Unauthenticated && !r.refreshed && turn.asked.None? then Return(NO_TOKEN)
    else if reply.kind == Unauthenticated && !r.refreshed && ShouldResendAfter401(false, r.token, turn.asked.value) then
      Again(Retry(r.attempt, true, turn.asked.value))
    else if (reply.kind == Transient || reply.kind == RateLimit) && attempt < MAX_ATTEMPTS && repeats then
      Again(r.(attempt := attempt))
    else Return(DriveResponse(false, reply.status, reply.kind, false, 0))
  }

  // The state of a call that has gone on after each of these turns ...
  function Retrying(repeats: bool, token: string, turns: seq<Turn>): Option<Retry> {
    if turns == [] then Some(Retry(0, false, token))
    else
      var before := Retrying(repeats, token, turns[..|turns| - 1]);
      if before.None? then None
      else
        match AfterTurn(repeats, before.value, turns[|turns| - 1])
        case Again(r) => Some(r)
        case Return(_) => None
  }

  // ... and the response of one that has returned after the last of them.
  function Response(repeats: bool, token: string, turns: seq<Turn>): Option<DriveResponse> {
    if turns == [] then None
    else
      var before := Retrying(repeats, token, turns[..|turns| - 1]);
      if before.None? then None
      else
        match AfterTurn(repeats, before.value, turns[|turns| - 1])
        case Again(_) => None
        case Return(resp) => Some(resp)
  }

  // The server may give these replies in a row, going from one store to the other.
  ghost predicate Exchanged(s: Store, req: Request, turns: seq<Turn>, s': Store) {
    if turns == [] then s' == s
    else
      var n := |turns| - 1;
      exists mid :: Exchanged(s, req, turns[..n], mid) && Serves(mid, req, s', turns[n].reply)
  }

  lemma OneTurnMore(repeats: bool, token: string, turns: seq<Turn>, turn: Turn, s: Store, req: Request, mid: Store,
                    s': Store)
    requires Retrying(repeats, token, turns).Some?
    requires Exchanged(s, req, turns, mid) && Serves(mid, req, s', turn.reply)
    ensures Exchanged(s, req, turns + [turn], s')
    ensures match AfterTurn(repeats, Retrying(repeats, token, turns).value, turn)
            case Again(r) => Retrying(repeats, token, turns + [turn]) == Some(r)
            case Return(resp) => Response(repeats, token, turns + [turn]) == Some(resp)
  {
    var longer := turns + [turn];
    assert longer[..|longer| - 1] == turns;
  }

  // Applied at most once, however many attempts were ambiguous, if the gate
  // keeps an unsafe request from being repeated.
  ghost predicate OnceAtMost(s: Store, req: Request, repeats: bool, s': Store) {
    !repeats || RepeatSafe(req) ==> s' == s || Applies(s, req, s')
  }

  // What a response says about the store.
  ghost predicate Honours(s: Store, req: Request, repeats: bool, resp: DriveResponse, s': Store) {
    // Success means applied; for a read, that the answer is right.
    && (resp.ok ==>
          match req
          case Fetch(id) => id in s.ids && s' == s
          case ReserveId => resp.id !in s.ids && s' == s
          case _ => !repeats || RepeatSafe(req) ==> Applies(s, req, s'))
    // A call that is not repeated and reports a definite error changed nothing.
    && (!resp.ok && !repeats && resp.kind != Transient ==> s' == s)
    // A failure after a change says that it may have been applied exactly when
    // the call does not repeat and its last reply was lost.
    && (!resp.ok && s' != s ==> (resp.maybeApplied <==> !repeats && resp.status == 0))
    && (resp.maybeApplied ==> !resp.ok && resp.kind == Transient && !repeats)
  }

  ghost predicate Underway(s: Store, req: Request, repeats: bool, mid: Store) {
    (!repeats ==> mid == s) && OnceAtMost(s, req, repeats, mid)
  }

  lemma TurnHonours(s: Store, req: Request, repeats: bool, mid: Store, r: Retry, turn: Turn, s': Store)
    requires Underway(s, req, repeats, mid) && Serves(mid, req, s', turn.reply) && r.attempt < MAX_ATTEMPTS
    ensures OnceAtMost(s, req, repeats, s')
    ensures match AfterTurn(repeats, r, turn)
            case Again(q) =>
              && Underway(s, req, repeats, s') && q.attempt < MAX_ATTEMPTS
              && (if r.refreshed || !q.refreshed then q.refreshed == r.refreshed && q.attempt == r.attempt + 1
                  else q.attempt == r.attempt)
            case Return(resp) => Honours(s, req, repeats, resp, s')
  {
    if RepeatSafe(req) {
      RepeatIsOnce(s, req, mid, s');
    }
  }

  // ----- How a call ends -----

  predicate Succeeded(turn: Turn) { turn.reply.Reply? && IsSuccess(turn.reply.status) }

  predicate Was401(turn: Turn) {
    turn.reply.Reply? && !IsSuccess(turn.reply.status) && turn.reply.kind == Unauthenticated
  }

  // Lost, a 5xx or a 429.
  predicate MayPass(turn: Turn) {
    turn.reply.Lost?
    || (!IsSuccess(turn.reply.status) && (turn.reply.kind == Transient || turn.reply.kind == RateLimit))
  }

  predicate Had401(turns: seq<Turn>) { exists t <- turns :: Was401(t) }

  // The first 401, for which another token than the rejected one was had.
  predicate Resends(token: string, turns: seq<Turn>, i: nat)
    requires i < |turns|
  {
    && Was401(turns[i]) && !Had401(turns[..i])
    && turns[i].asked.Some? && turns[i].asked.value != "" && turns[i].asked.value != token
  }

  // A turn after which the request is sent again.
  predicate GoesAgain(repeats: bool, token: string, turns: seq<Turn>, i: nat)
    requires i < |turns|
  {
    (repeats && MayPass(turns[i])) || Resends(token, turns, i)
  }

  ghost predicate AllGoAgain(repeats: bool, token: string, turns: seq<Turn>) {
    forall i :: 0 <= i < |turns| ==> GoesAgain(repeats, token, turns, i)
  }

  // The requests sent, not counting the re-send that follows a 401.
  function Attempts(turns: seq<Turn>): nat {
    if turns == [] then 0 else if Had401(turns[..|turns| - 1]) then |turns| - 1 else |turns|
  }

  // The token in use after these turns: the one asked for after a 401, if any.
  function InUse(token: string, turns: seq<Turn>): string {
    if turns == [] then token
    else
      var n := |turns| - 1;
      if Was401(turns[n]) && turns[n].asked.Some? then turns[n].asked.value else InUse(token, turns[..n])
  }

  ghost predicate RightTokens(token: string, turns: seq<Turn>) {
    forall i :: 0 <= i < |turns| ==> turns[i].sent == InUse(token, turns[..i])
  }

  // What the last turn makes of the response.
  predicate Reports(repeats: bool, last: Turn, first401: bool, resp: DriveResponse) {
    if Succeeded(last) then 
      resp == DriveResponse(true, last.reply.status, OtherError, false, last.reply.id, last.reply.located)
    else if last.reply.Lost? then resp == DriveResponse(false, 0, Transient, !repeats, 0)
    else if Was401(last) && first401 && last.asked.None? then resp == NO_TOKEN
    else resp == DriveResponse(false, last.reply.status, last.reply.kind, false, 0)
  }

  // A call that made these turns: every one but the last made it send again,
  // and the last did not, because it succeeded, or failed for good, or was the
  // fifth attempt of a call that may repeat.
  ghost predicate Called(repeats: bool, token: string, turns: seq<Turn>, resp: DriveResponse) {
    && turns != []
    && var n := |turns| - 1;
    && AllGoAgain(repeats, token, turns[..n]) && Attempts(turns) <= MAX_ATTEMPTS
    && RightTokens(token, turns)
    && (GoesAgain(repeats, token, turns, n) ==> MayPass(turns[n]) && Attempts(turns) == MAX_ATTEMPTS)
    && Reports(repeats, turns[n], !Had401(turns[..n]), resp)
  }

  // The state of a call that goes on, told from its turns.
  ghost predicate StateTells(repeats: bool, token: string, turns: seq<Turn>, r: Retry) {
    && AllGoAgain(repeats, token, turns)
    && (r.refreshed <==> Had401(turns)) && r.token == InUse(token, turns)
    && (!r.refreshed ==> r.token == token)
    && r.attempt == |turns| - (if Had401(turns) then 1 else 0) && r.attempt < MAX_ATTEMPTS
    && RightTokens(token, turns)
  }

  lemma LongerTurns(repeats: bool, token: string, turns: seq<Turn>, turn: Turn)
    ensures var longer, n := turns + [turn], |turns|;
            && longer[..n] == turns && longer[n] == turn
            && (Had401(longer) <==> Had401(turns) || Was401(turn))
            && InUse(token, longer) ==
               (if Was401(turn) && turn.asked.Some? then turn.asked.value else InUse(token, turns))
            && Attempts(longer) == (if Had401(turns) then n else n + 1)
            && (GoesAgain(repeats, token, longer, n) <==>
                (repeats && MayPass(turn)) || (Was401(turn) && !Had401(turns) && turn.asked.Some?
                                               && turn.asked.value != "" && turn.asked.value != token))
  {
    var longer, n := turns + [turn], |turns|;
    assert longer[..n] == turns && longer[n] == turn;
  }

  lemma LongerGoAgain(repeats: bool, token: string, turns: seq<Turn>, turn: Turn)
    requires AllGoAgain(repeats, token, turns) && RightTokens(token, turns)
    ensures var longer, n := turns + [turn], |turns|;
            && (GoesAgain(repeats, token, longer, n) ==> AllGoAgain(repeats, token, longer))
            && (turn.sent == InUse(token, turns) ==> RightTokens(token, longer))
  {
    var longer, n := turns + [turn], |turns|;
    hide MayPass, Was401, Had401, InUse;
    assert longer[..n] == turns && forall i :: 0 <= i < n ==> longer[..i] == turns[..i];
    assert forall i :: 0 <= i < n ==> (GoesAgain(repeats, token, longer, i) <==> GoesAgain(repeats, token, turns, i));
  }

  lemma TurnGoesOn(repeats: bool, token: string, turns: seq<Turn>, r: Retry, turn: Turn, q: Retry)
    requires StateTells(repeats, token, turns, r) && turn.sent == r.token
    requires AfterTurn(repeats, r, turn) == Again(q)
    ensures StateTells(repeats, token, turns + [turn], q)
  {
    LongerTurns(repeats, token, turns, turn);
    LongerGoAgain(repeats, token, turns, turn);
    AgainIs(repeats, r, turn, q);
    hide AllGoAgain, GoesAgain, Resends, InUse, Had401, RightTokens, Attempts, AfterTurn, MayPass, Was401;
  }

  lemma AgainIs(repeats: bool, r: Retry, turn: Turn, q: Retry)
    requires AfterTurn(repeats, r, turn) == Again(q)
    ensures if Was401(turn)
            then !r.refreshed && turn.asked.Some? && turn.asked.value != "" && turn.asked.value != r.token
              && q == Retry(r.attempt, true, turn.asked.value)
            else repeats && MayPass(turn) && r.attempt + 1 < MAX_ATTEMPTS && q == r.(attempt := r.attempt + 1)
  {
  }

  lemma TurnReturns(repeats: bool, token: string, turns: seq<Turn>, r: Retry, turn: Turn, resp: DriveResponse)
    requires StateTells(repeats, token, turns, r) && turn.sent == r.token
    requires AfterTurn(repeats, r, turn) == Return(resp)
    ensures Called(repeats, token, turns + [turn], resp)
  {
    LongerTurns(repeats, token, turns, turn);
    LongerGoAgain(repeats, token, turns, turn);
    ReturnIs(repeats, r, turn, resp);
    hide AllGoAgain, GoesAgain, Resends, InUse, Had401, RightTokens, Attempts, Called, Reports;
    hide AfterTurn, MayPass, Was401;
    LastTurnIs(repeats, token, turns, turn, resp);
  }

  lemma ReturnIs(repeats: bool, r: Retry, turn: Turn, resp: DriveResponse)
    requires AfterTurn(repeats, r, turn) == Return(resp) && r.attempt < MAX_ATTEMPTS
    ensures Reports(repeats, turn, !r.refreshed, resp)
    ensures repeats && MayPass(turn) ==> r.attempt + 1 == MAX_ATTEMPTS
    ensures Was401(turn) ==>
      !MayPass(turn) && (r.refreshed || turn.asked.None? || turn.asked.value == "" || turn.asked.value == r.token)
  {
  }

  lemma LastTurnIs(repeats: bool, token: string, turns: seq<Turn>, turn: Turn, resp: DriveResponse)
    requires AllGoAgain(repeats, token, turns) && RightTokens(token, turns + [turn])
    requires Attempts(turns + [turn]) <= MAX_ATTEMPTS
    requires GoesAgain(repeats, token, turns + [turn], |turns|) ==>
      MayPass(turn) && Attempts(turns + [turn]) == MAX_ATTEMPTS
    requires Reports(repeats, turn, !Had401(turns), resp)
    ensures Called(repeats, token, turns + [turn], resp)
  {
    var longer, n := turns + [turn], |turns|;
    hide AllGoAgain, GoesAgain, Resends, Had401, RightTokens, Attempts, Reports, MayPass;
    assert longer[..n] == turns && longer[n] == turn;
  }

  // What went over the wire, turn by turn.
  function Wire(req: Request, turns: seq<Turn>): seq<Sent> {
    if turns == [] then []
    else
      var n := |turns| - 1;
      Wire(req, turns[..n]) + [Sent(turns[n].sent, req, turns[n].reply)]
  }

  lemma OneSentMore(req: Request, turns: seq<Turn>, turn: Turn)
    ensures Wire(req, turns + [turn]) == Wire(req, turns) + [Sent(turn.sent, req, turn.reply)]
    ensures Wire(req, []) == []
  {
    var longer := turns + [turn];
    assert longer[..|longer| - 1] == turns;
  }

  lemma {:induction false} WireIsOf(req: Request, turns: seq<Turn>)
    ensures forall e <- Wire(req, turns) :: e.req == req
  {
    if turns != [] {
      WireIsOf(req, turns[..|turns| - 1]);
    }
  }

  // ----- The call -----

  // A call as it went: the token it began with, if one was had, and its turns.
  datatype Transcript = Transcript(token: string, turns: seq<Turn>)

  ghost predicate Answers(repeats: bool, t: Transcript, resp: DriveResponse) {
    if t.turns == [] then resp == NO_TOKEN else Called(repeats, t.token, t.turns, resp)
  }

  // Sends the request once, and asks for another token if a 401 calls for it.
  method Attempt(drive: Drive, req: Request, repeats: bool, r: Retry) returns (verdict: Verdict, ghost turn: Turn)
    modifies drive
    ensures drive.requests == old(drive.requests) + 1 && drive.replies == old(drive.replies)
    ensures drive.history == old(drive.history) + [Sent(turn.sent, req, turn.reply)]
    ensures Serves(old(drive.store), req, drive.store, turn.reply)
    ensures turn.sent == r.token && verdict == AfterTurn(repeats, r, turn)
    ensures drive.failures >= old(drive.failures) && (!Worked(req, turn.reply) ==> drive.failures > old(drive.failures))
  {
    var attempt := r.attempt + 1;
    var reply := drive.Http(r.token, req);
    turn := Turn(r.token, reply, None);
    if reply.Lost? {
      if repeats && attempt < MAX_ATTEMPTS {
        return Again(r.(attempt := attempt)), turn;
      }
      return Return(DriveResponse(false, 0, Transient, !repeats, 0)), turn;
    }
    if IsSuccess(reply.status) {
      return Return(DriveResponse(true, reply.status, OtherError, false, reply.id, reply.located)), turn;
    }
    if reply.kind == Unauthenticated && !r.refreshed {
      var replacement := drive.AskToken();
      turn := Turn(r.token, reply, replacement);
      if replacement.None? {
        return Return(NO_TOKEN), turn;
      }
      if ShouldResendAfter401(r.refreshed, r.token, replacement.value) {
        return Again(Retry(attempt - 1, true, replacement.value)), turn;
      }
    }
    var retryable := reply.kind == Transient || reply.kind == RateLimit;
    if retryable && attempt < MAX_ATTEMPTS && repeats {
      return Again(r.(attempt := attempt)), turn;
    }
    verdict := Return(DriveResponse(false, reply.status, reply.kind, false, 0));
  }

  // A call that goes on, and one that has returned.
  ghost predicate InCall(s0: Store, s: Store, req: Request, repeats: bool, call: Transcript, r: Retry) {
    && r.attempt < MAX_ATTEMPTS && |call.turns| == r.attempt + (if r.refreshed then 1 else 0)
    && Underway(s0, req, repeats, s) && Exchanged(s0, req, call.turns, s)
    && StateTells(repeats, call.token, call.turns, r)
  }

  ghost predicate CallEnded(s0: Store, s: Store, req: Request, repeats: bool, call: Transcript, resp: DriveResponse) {
    && |call.turns| <= MAX_ATTEMPTS + 1
    && OnceAtMost(s0, req, repeats, s) && Honours(s0, req, repeats, resp, s) && Exchanged(s0, req, call.turns, s)
    && Answers(repeats, call, resp)
  }

  lemma CallTurn(s0: Store, mid: Store, s: Store, req: Request, repeats: bool, call: Transcript, r: Retry, turn: Turn)
    requires InCall(s0, mid, req, repeats, call, r)
    requires Serves(mid, req, s, turn.reply) && turn.sent == r.token
    ensures var longer := call.(turns := call.turns + [turn]);
            match AfterTurn(repeats, r, turn)
            case Again(q) =>
              && InCall(s0, s, req, repeats, longer, q) && q.attempt < MAX_ATTEMPTS
              && (r.refreshed ==> q.refreshed) && (q.refreshed == r.refreshed ==> q.attempt > r.attempt)
            case Return(resp) =>
              && CallEnded(s0, s, req, repeats, longer, resp)
              && (resp.ok <==> Succeeded(turn)) && (resp.ok ==> resp.located == turn.reply.located)
  {
    TurnHonours(s0, req, repeats, mid, r, turn, s);
    OneServedMore(call.turns, turn, s0, req, mid, s);
    match AfterTurn(repeats, r, turn)
    case Again(q) =>
      TurnGoesOn(repeats, call.token, call.turns, r, turn, q);
      hide StateTells, Underway, Exchanged, Serves;
    case Return(resp) =>
      TurnReturns(repeats, call.token, call.turns, r, turn, resp);
      hide StateTells, Underway, Exchanged, Serves, Called, Honours, OnceAtMost;
  }

  // Before the first turn: with a token, and without one.
  lemma CallBegins(s: Store, req: Request, repeats: bool, token: string)
    ensures InCall(s, s, req, repeats, Transcript(token, []), Retry(0, false, token))
    ensures CallEnded(s, s, req, repeats, Transcript(token, []), NO_TOKEN)
    ensures Wire(req, []) == []
  {
  }

  // Five attempts and the one re-send at most. The replies decide the response.
  method ExecuteWithRetry(drive: Drive, m: HttpMethod, req: Request, retryNonIdempotent: bool)
    returns (resp: DriveResponse, ghost call: Transcript)
    modifies drive
    ensures drive.requests == old(drive.requests) + |call.turns| && |call.turns| <= MAX_ATTEMPTS + 1
    ensures drive.history == old(drive.history) + Wire(req, call.turns) && drive.replies == old(drive.replies)
    ensures OnceAtMost(old(drive.store), req, Repeats(m, retryNonIdempotent), drive.store)
    ensures Honours(old(drive.store), req, Repeats(m, retryNonIdempotent), resp, drive.store)
    ensures Exchanged(old(drive.store), req, call.turns, drive.store)
    ensures Answers(Repeats(m, retryNonIdempotent), call, resp)
    ensures drive.failures >= old(drive.failures)
    ensures !resp.ok || (req.StartSession? && !resp.located) ==> drive.failures > old(drive.failures)
  {
    hide AfterTurn, InCall, CallEnded, Serves, Answers, Exchanged, OnceAtMost, Honours, Wire, Repeats;
    var repeats := Repeats(m, retryNonIdempotent);
    ghost var before, history := drive.store, drive.history;
    var asked := drive.AskToken();
    var token := if asked.Some? then asked.value else "";
    call := Transcript(token, []);
    CallBegins(before, req, repeats, token);
    if asked.None? {
      EndMeans(before, before, req, repeats, call, NO_TOKEN);
      return NO_TOKEN, call;
    }
    var r := Retry(0, false, token);
    while true
      invariant InCall(before, drive.store, req, repeats, call, r) && r.attempt < MAX_ATTEMPTS
      invariant drive.requests == old(drive.requests) + |call.turns| && drive.replies == old(drive.replies)
      invariant drive.history == history + Wire(req, call.turns)
      invariant drive.failures >= old(drive.failures)
      decreases !r.refreshed, MAX_ATTEMPTS - r.attempt
    {
      ghost var mid, turn := drive.store, Turn("", Lost, None);
      var verdict;
      verdict, turn := Attempt(drive, req, repeats, r);
      CallTurn(before, mid, drive.store, req, repeats, call, r, turn);
      OneSentMore(req, call.turns, turn);
      call := call.(turns := call.turns + [turn]);
      match verdict
      case Again(q) => r := q;
      case Return(response) =>
        EndMeans(before, drive.store, req, repeats, call, response);
        return response, call;
    }
  }

  lemma EndMeans(s0: Store, s: Store, req: Request, repeats: bool, call: Transcript, resp: DriveResponse)
    requires CallEnded(s0, s, req, repeats, call, resp)
    ensures |call.turns| <= MAX_ATTEMPTS + 1
    ensures OnceAtMost(s0, req, repeats, s) && Honours(s0, req, repeats, resp, s) && Exchanged(s0, req, call.turns, s)
    ensures Answers(repeats, call, resp)
  {
  }

  lemma OneServedMore(turns: seq<Turn>, turn: Turn, s: Store, req: Request, mid: Store, s': Store)
    requires Exchanged(s, req, turns, mid) && Serves(mid, req, s', turn.reply)
    ensures Exchanged(s, req, turns + [turn], s')
  {
    var longer := turns + [turn];
    assert longer[..|longer| - 1] == turns;
  }

  function AllLost(token: string, n: nat): seq<Turn> {
    if n == 0 then [] else AllLost(token, n - 1) + [Turn(token, Lost, None)]
  }

  lemma NoTurnYet(repeats: bool, token: string, s: Store, req: Request)
    ensures Exchanged(s, req, [], s) && Retrying(repeats, token, []) == Some(Retry(0, false, token))
  {
  }

  lemma {:induction false} LostAttempts(s: Store, req: Request, s': Store, token: string, n: nat)
    requires 0 < n < MAX_ATTEMPTS && Applies(s, req, s')
    ensures Exchanged(s, req, AllLost(token, n), s')
    ensures Retrying(true, token, AllLost(token, n)) == Some(Retry(n, false, token))
  {
    hide Exchanged, Retrying, Applies;
    if n == 1 {
      NoTurnYet(true, token, s, req);
      OneTurnMore(true, token, [], Turn(token, Lost, None), s, req, s, s');
    } else {
      LostAttempts(s, req, s', token, n - 1);
      OneTurnMore(true, token, AllLost(token, n - 1), Turn(token, Lost, None), s, req, s', s');
    }
  }

  // A create under a reserved id that is applied and never answered returns an
  // error that does not say so ...
  lemma LostCreateIsUnflagged(s: Store, id: Id, content: seq<Byte>, token: string)
    requires id !in s.ids
    ensures Exchanged(s, Create(Some(id), content), AllLost(token, MAX_ATTEMPTS), s.Publish(id, content))
    ensures Response(true, token, AllLost(token, MAX_ATTEMPTS)) == Some(DriveResponse(false, 0, Transient, false, 0))
  {
    var req, after, n := Create(Some(id), content), s.Publish(id, content), MAX_ATTEMPTS - 1;
    assert Apply(s, req, 0) == Some(after);
    LostAttempts(s, req, after, token, n);
    OneTurnMore(true, token, AllLost(token, n), Turn(token, Lost, None), s, req, after, after);
  }

  // ... and so does a bare create, or an overwrite, that is applied and then
  // answered with a server error.
  lemma AnsweredChangeIsUnflagged(s: Store, req: Request, s': Store, token: string)
    requires req.Create? || req.Replace?
    requires Applies(s, req, s')
    ensures var turns := [Turn(token, Reply(503, Transient, 0), None)];
            && Exchanged(s, req, turns, s')
            && Response(false, token, turns) == Some(DriveResponse(false, 503, Transient, false, 0))
  {
    var turn := Turn(token, Reply(503, Transient, 0), None);
    OneTurnMore(false, token, [], turn, s, req, s, s');
    assert [] + [turn] == [turn];
  }

  // ----- Whole-file uploads -----

  // A metadata read: whether the file is there.
  method GetMetadata(drive: Drive, id: Id) returns (resp: DriveResponse, ghost call: Transcript)
    modifies drive
    ensures drive.store == old(drive.store)
    ensures resp.ok ==> id in drive.store.ids
    ensures !resp.maybeApplied
    ensures drive.requests <= old(drive.requests) + MAX_ATTEMPTS + 1
    ensures Answers(true, call, resp) && drive.history == old(drive.history) + Wire(Fetch(id), call.turns)
    ensures drive.replies == old(drive.replies)
    ensures drive.failures >= old(drive.failures) && (!resp.ok ==> drive.failures > old(drive.failures))
  {
    hide Answers, Exchanged;
    resp, call := ExecuteWithRetry(drive, GET, Fetch(id), false);
  }

  method GenerateFileId(drive: Drive)
    returns (reserved: Option<Id>, ghost resp: DriveResponse, ghost call: Transcript)
    modifies drive
    ensures drive.store == old(drive.store)
    ensures reserved.Some? ==> reserved.value !in drive.store.ids
    ensures drive.requests <= old(drive.requests) + MAX_ATTEMPTS + 1
    ensures Answers(true, call, resp) && reserved == (if resp.ok then Some(resp.id) else None)
    ensures drive.history == old(drive.history) + Wire(ReserveId, call.turns) && drive.replies == old(drive.replies)
    ensures drive.failures >= old(drive.failures) && (reserved.None? ==> drive.failures > old(drive.failures))
  {
    hide Answers, Exchanged;
    var answer;
    answer, call := ExecuteWithRetry(drive, GET, ReserveId, false);
    reserved, resp := if answer.ok then Some(answer.id) else None, answer;
  }

  function UploadRequest(existing: Option<Id>, content: seq<Byte>, reserved: Option<Id>): Request {
    if existing.Some? then Replace(existing.value, content) else Create(reserved, content)
  }

  // One multipart request: an overwrite, a create under a reserved id (safe to
  // repeat), or a bare create (never repeated). Whatever is lost on the way,
  // at most one file content appears, and exactly one when it returns ok.
  method Upload(drive: Drive, existing: Option<Id>, content: seq<Byte>, reserved: Option<Id>)
    returns (resp: DriveResponse, ghost first: DriveResponse, ghost call: Transcript, ghost check: Transcript)
    requires reserved.Some? ==> reserved.value !in drive.store.ids
    modifies drive
    ensures drive.store == old(drive.store) || Publishes(old(drive.store), existing, content, drive.store)
    ensures resp.ok ==> Publishes(old(drive.store), existing, content, drive.store)
    ensures existing.None? && reserved.Some? && drive.store != old(drive.store) ==>
      drive.store == old(drive.store).Publish(reserved.value, content)
    // A failure after the content appeared says so exactly when the id was not
    // reserved and the last reply was lost.
    ensures !resp.ok && drive.store != old(drive.store) ==>
      (resp.maybeApplied <==> (existing.Some? || reserved.None?) && resp.status == 0)
    ensures drive.requests <= old(drive.requests) + 2 * (MAX_ATTEMPTS + 1)
    // The one call answers, and a 409 to a create under a reserved id is
    // looked into: the answer is then whether the file is there.
    ensures Answers(existing.None? && reserved.Some?, call, first)
    ensures var looked := existing.None? && reserved.Some? && !first.ok && first.status == 409;
            && (if looked then Answers(true, check, resp) else resp == first && check.turns == [])
            && drive.history == old(drive.history) + Wire(UploadRequest(existing, content, reserved), call.turns)
                                + (if looked then Wire(Fetch(reserved.value), check.turns) else [])
    ensures drive.replies == old(drive.replies)
    ensures drive.failures >= old(drive.failures) && (!resp.ok ==> drive.failures > old(drive.failures))
  {
    hide Answers, Exchanged;
    check := Transcript("", []);
    if existing.Some? {
      resp, call := ExecuteWithRetry(drive, PATCH, Replace(existing.value, content), false);
      first := resp;
      return;
    }
    if reserved.None? {
      resp, call := ExecuteWithRetry(drive, POST, Create(None, content), false);
      first := resp;
      return;
    }
    resp, call := ExecuteWithRetry(drive, POST, Create(reserved, content), true);
    first := resp;
    if !resp.ok && resp.status == 409 {
      resp, check := GetMetadata(drive, reserved.value);
    }
  }

  // ----- Streaming uploads -----

  // Opening a session publishes nothing, so it may be repeated: a lost answer
  // only orphans a session.
  method StartResumableUpload(drive: Drive, existing: Option<Id>)
    returns (ok: bool, ghost resp: DriveResponse, ghost call: Transcript)
    modifies drive
    ensures drive.store.log == old(drive.store).log && drive.store.ids == old(drive.store).ids
    ensures drive.store == old(drive.store) || drive.store.held == []
    ensures ok ==> drive.store.held == [] && !drive.store.Done() && drive.store.target == existing
    ensures drive.requests <= old(drive.requests) + MAX_ATTEMPTS + 1
    ensures Answers(true, call, resp) && (ok <==> resp.ok && resp.located)
    ensures drive.history == old(drive.history) + Wire(StartSession(existing), call.turns)
    ensures drive.replies == old(drive.replies)
    ensures drive.failures >= old(drive.failures) && (!ok ==> drive.failures > old(drive.failures))
  {
    hide Answers, Exchanged;
    var m := if existing.Some? then PATCH else POST;
    var answer;
    answer, call := ExecuteWithRetry(drive, m, StartSession(existing), true);
    ok, resp := answer.ok && answer.located, answer;
  }

  // The session holds exactly the bytes before the chunk and then some of it.
  ghost predicate HoldsPart(s: Store, base: seq<Byte>, pending: seq<Byte>) {
    |base| <= |s.held| && s.held <= base + pending
  }

  // What the store may look like while a chunk is being sent: more of it is
  // held; only a final chunk may have been published, and then whole.
  ghost predicate Sending(s0: Store, s: Store, final: bool, pending: seq<Byte>) {
    && s.target == s0.target
    && HoldsPart(s, s0.held, pending)
    && (!s.Done() ==> s.log == s0.log && s.ids == s0.ids)
    && (s.Done() ==>
          && final && s.held == s0.held + pending
          && MayPublishAs(s0, s0.target, s.published.value)
          && s.log == s0.log + [Publication(s.published.value, s0.held + pending)]
          && s.ids == s0.ids + {s.published.value})
  }

  // The part of the chunk the session does not hold yet, or a question.
  ghost predicate Continues(s0: Store, s: Store, final: bool, pending: seq<Byte>, req: SessionRequest) {
    && |s0.held| <= |s.held| <= |s0.held| + |pending|
    && req.total == (if final then Some(|s0.held| + |pending|) else None)
    && (req.Put? ==> !s.Done() && req.start == |s.held| && req.data == pending[|s.held| - |s0.held|..])
  }

  lemma ExchangeKeepsSending(s0: Store, s: Store, final: bool, pending: seq<Byte>, req: SessionRequest,
                             s': Store, reply: UploadReply)
    requires Sending(s0, s, final, pending) && Continues(s0, s, final, pending, req)
    requires ServesSession(s, req, s', reply)
    ensures Sending(s0, s', final, pending) && |s.held| <= |s'.held|
    ensures MayAnswerSession(s', s'.Done() && !s.Done(), reply)
  {
  }

  // What the client knows each time it is about to send: where the session
  // is, and that a publication it has not heard of is one it suspects.
  ghost predicate Knows(offset: nat, len: nat, final: bool, step: UploadStep, p: Progress, held: nat, done: bool) {
    && GoesOn(step) && InBounds(len, p)
    && (!final ==> p.skip % CHUNK_MULTIPLE == 0)
    && offset + p.skip <= held <= offset + len
    && (step.kind == Send ==> !done && held == offset + p.skip)
    && (step.kind == Send && !final ==> p.skip < len)
    && (done ==> final && p.finalMaybeSent)
  }

  // What each way of stopping proves.
  ghost predicate Concluded(offset: nat, len: nat, final: bool, step: UploadStep, held: nat, done: bool) {
    && (step.kind == Done ==> final && done)
    && (step.kind == Accepted ==> !final && held == offset + len)
    && (step.ambiguous ==> final && step.kind == Fail)
    && (step.kind == Fail && done ==> step.ambiguous)
  }

  // An honest answer from a session that now holds `held` bytes.
  ghost predicate Honest(answer: Answer, held: nat, done: bool, publishedNow: bool) {
    match answer
    case Completed => done
    case Holds(next) => !done && (next.Some? ==> next.value == held)
    case Refused(_, serverError) => publishedNow ==> serverError
    case NoAnswer => true
  }

  lemma RoundOfKnowledge(offset: nat, len: nat, final: bool, step: UploadStep, p: Progress, held: nat, done: bool,
                         answer: Answer, held': nat, done': bool, next: UploadStep, q: Progress)
    requires offset % CHUNK_MULTIPLE == 0 && Knows(offset, len, final, step, p, held, done)
    requires held <= held' <= offset + len && (done ==> done') && (done' ==> final)
    requires Honest(answer, held', done', done' && !done)
    requires (next, q) == Decide(offset, len, final, p, answer)
    ensures GoesOn(next) ==>
      Knows(offset, len, final, next, q, held', done') && Closer(q, p) && Spent(final, q) >= Spent(final, p) + 1
    ensures Concluded(offset, len, final, next, held', done')
  {
    DecideMakesProgress(offset, len, final, p, answer);
  }

  ghost predicate InStep(s0: Store, s: Store, final: bool, pending: seq<Byte>, step: UploadStep, p: Progress) {
    && Sending(s0, s, final, pending)
    && Knows(|s0.held|, |pending|, final, step, p, |s.held|, s.Done())
  }

  ghost predicate Ended(s0: Store, s: Store, final: bool, pending: seq<Byte>, step: UploadStep) {
    && Sending(s0, s, final, pending)
    && Concluded(|s0.held|, |pending|, final, step, |s.held|, s.Done())
  }

  ghost function RequestFor(s0: Store, final: bool, pending: seq<Byte>, step: UploadStep, p: Progress): SessionRequest
    requires p.skip <= |pending|
  {
    var total := if final then Some(|s0.held| + |pending|) else None;
    if step.kind == Send && p.skip < |pending|
    then Put(|s0.held| + p.skip, pending[p.skip..], total)
    else Query(total)
  }

  lemma RequestIsWellFormed(s0: Store, s: Store, final: bool, pending: seq<Byte>, step: UploadStep, p: Progress)
    requires |s0.held| % CHUNK_MULTIPLE == 0 && (!final ==> |pending| % CHUNK_MULTIPLE == 0)
    requires InStep(s0, s, final, pending, step, p)
    ensures p.skip <= |pending| && WellFormed(s, RequestFor(s0, final, pending, step, p))
  {
  }

  lemma OneRound(s0: Store, s: Store, final: bool, pending: seq<Byte>, step: UploadStep, p: Progress,
                 s': Store, reply: UploadReply, answer: Answer, next: UploadStep, q: Progress)
    requires (next, q) == Decide(|s0.held|, |pending|, final, p, answer)
    requires |s0.held| % CHUNK_MULTIPLE == 0 && InStep(s0, s, final, pending, step, p)
    requires ServesSession(s, RequestFor(s0, final, pending, step, p), s', reply) && Means(reply, answer)
    ensures Sending(s0, s', final, pending)
    ensures GoesOn(next) ==>
      InStep(s0, s', final, pending, next, q) && Closer(q, p) && Spent(final, q) >= Spent(final, p) + 1
    ensures !GoesOn(next) ==> Ended(s0, s', final, pending, next)
  {
    ExchangeKeepsSending(s0, s, final, pending, RequestFor(s0, final, pending, step, p), s', reply);
    RoundOfKnowledge(|s0.held|, |pending|, final, step, p, |s.held|, s.Done(),
                     answer, |s'.held|, s'.Done(), next, q);
  }

  lemma PromptMeans(req: SessionRequest, reply: UploadReply, answer: Answer)
    requires Prompt(req, reply) && Means(reply, answer)
    ensures req.total.Some? ==> answer == Completed
    ensures req.total.None? && req.Put? ==> answer == Holds(Some(req.start + |req.data|))
  {
    if req.total.None? && req.Put? && answer.next.Some? {
      RangeSaysOneThing(reply.range, answer.next.value, req.start + |req.data|);
    }
  }

  // Sends what the step asks for and takes the next decision.
  method Exchange(drive: Drive, buf: ChunkedUploadBuffer, final: bool, state: ChunkUploadState, step: UploadStep,
                  ghost s0: Store)
    returns (next: UploadStep, reply: UploadReply, ghost answer: Answer)
    requires buf.Valid() && (!final ==> |buf.pending| % CHUNK_MULTIPLE == 0)
    requires |s0.held| == buf.offset
    requires InStep(s0, drive.store, final, buf.pending, step, state.Value())
    modifies drive, state
    ensures drive.requests == old(drive.requests) + 1
    ensures drive.asks == old(drive.asks) + [RequestFor(s0, final, buf.pending, step, old(state.Value()))]
    ensures drive.replies == old(drive.replies) + [reply] && drive.history == old(drive.history) && Means(reply, answer)
    ensures (next, state.Value()) == Decide(buf.offset, |buf.pending|, final, old(state.Value()), answer)
    ensures drive.failures >= old(drive.failures)
    ensures step.kind == Send && old(state.skip) < |buf.pending| && drive.failures == old(drive.failures) ==>
      answer == if final then Completed else Holds(Some(buf.offset + |buf.pending|))
    ensures Sending(s0, drive.store, final, buf.pending)
    ensures GoesOn(next) ==>
      && InStep(s0, drive.store, final, buf.pending, next, state.Value())
      && Closer(state.Value(), old(state.Value()))
      && Spent(final, state.Value()) >= Spent(final, old(state.Value())) + 1
    ensures !GoesOn(next) ==> Ended(s0, drive.store, final, buf.pending, next)
  {
    hide InStep, Sending, Ended, WellFormed, Decide, Spent, Closer, RangeSays;
    ghost var s, p := drive.store, state.Value();
    RequestIsWellFormed(s0, s, final, buf.pending, step, p);
    var total := if final then Some(buf.Total()) else None;
    var request := if step.kind == Send && state.skip < |buf.pending|
      then Put(buf.offset + state.skip, buf.pending[state.skip..], total)
      else Query(total);
    assert request == RequestFor(s0, final, buf.pending, step, p);
    reply := drive.Session(request);
    next, answer := NextUploadStep(buf, final, state, reply);
    if Prompt(request, reply) {
      PromptMeans(request, reply, answer);
    }
    OneRound(s0, s, final, buf.pending, step, p, drive.store, reply, answer, next, state.Value());
  }

  // What to send after these answers: the rest of the chunk, from the byte last
  // reported, at first and after every report that leaves some; a question
  // otherwise.
  ghost function RequestAfter(offset: nat, final: bool, pending: seq<Byte>, answers: seq<Answer>): SessionRequest {
    var len := |pending|;
    var total := if final then Some(offset + len) else None;
    var at := Reported(offset, len, answers);
    if (answers == [] || InChunk(offset, len, answers[|answers| - 1])) && offset <= at < offset + len
    then Put(at, pending[at - offset..], total)
    else Query(total)
  }

  ghost predicate Asked(offset: nat, final: bool, pending: seq<Byte>, asks: seq<SessionRequest>, answers: seq<Answer>) {
    && |asks| == |answers|
    && forall k :: 0 <= k < |asks| ==> asks[k] == RequestAfter(offset, final, pending, answers[..k])
  }

  lemma OneAskMore(offset: nat, final: bool, pending: seq<Byte>, asks: seq<SessionRequest>, answers: seq<Answer>,
                   ask: SessionRequest, answer: Answer)
    requires Asked(offset, final, pending, asks, answers) && ask == RequestAfter(offset, final, pending, answers)
    ensures Asked(offset, final, pending, asks + [ask], answers + [answer])
  {
    hide RequestAfter;
    var longer := answers + [answer];
    assert longer[..|answers|] == answers && forall k :: 0 <= k < |answers| ==> longer[..k] == answers[..k];
  }

  lemma AskIsTold(s0: Store, final: bool, pending: seq<Byte>, answers: seq<Answer>, step: UploadStep, p: Progress)
    requires AllGoOn(|s0.held|, |pending|, final, answers) && InBounds(|pending|, p)
    requires p == Progressed(|s0.held|, |pending|, final, answers)
    requires step == StepAfter(|s0.held|, |pending|, final, answers)
    ensures RequestFor(s0, final, pending, step, p) == RequestAfter(|s0.held|, final, pending, answers)
  {
    SendsOn(|s0.held|, |pending|, final, answers);
    AskFits(s0, final, pending, answers, step, p);
    hide Progressed, AllGoOn, StepAfter, Reported, InChunk, RequestFor, RequestAfter;
  }

  lemma AskFits(s0: Store, final: bool, pending: seq<Byte>, answers: seq<Answer>, step: UploadStep, p: Progress)
    requires p.skip <= |pending| && |s0.held| + p.skip == Reported(|s0.held|, |pending|, answers)
    requires step.kind == Send <==> answers == [] || InChunk(|s0.held|, |pending|, answers[|answers| - 1])
    ensures RequestFor(s0, final, pending, step, p) == RequestAfter(|s0.held|, final, pending, answers)
  {
    hide Reported, InChunk;
    assert Reported(|s0.held|, |pending|, answers) - |s0.held| == p.skip;
  }

  // What each of the replies means.
  ghost predicate Meant(replies: seq<UploadReply>, answers: seq<Answer>) {
    |replies| == |answers| && forall i :: 0 <= i < |replies| ==> Means(replies[i], answers[i])
  }

  lemma CompletedIsAnswered(reply: UploadReply)
    requires Means(reply, Completed)
    ensures reply.transportOk
  {
  }

  lemma OneMeantMore(replies: seq<UploadReply>, answers: seq<Answer>, reply: UploadReply, answer: Answer)
    requires Meant(replies, answers) && Means(reply, answer)
    ensures Meant(replies + [reply], answers + [answer])
  {
  }

  lemma HowItEnded(s0: Store, s: Store, final: bool, pending: seq<Byte>, step: UploadStep)
    requires Ended(s0, s, final, pending, step)
    ensures Sending(s0, s, final, pending)
    ensures step.kind == Done ==> final && s.Done()
    ensures step.kind == Accepted ==> !final && s.held == s0.held + pending
    ensures step.kind == Fail && s.Done() ==> step.ambiguous
  {
  }

  lemma NothingMeant(offset: nat, final: bool, pending: seq<Byte>)
    ensures Meant([], []) && Asked(offset, final, pending, [], [])
  {
  }

  lemma ChunkBegins(s: Store, final: bool, pending: seq<Byte>)
    requires !s.Done() && pending != [] && |s.held| % CHUNK_MULTIPLE == 0
    requires !final ==> |pending| % CHUNK_MULTIPLE == 0
    ensures InStep(s, s, final, pending, UploadStep(Send, false, false), FRESH) && Spent(final, FRESH) == 0
  {
  }

  lemma StepInBounds(s0: Store, s: Store, final: bool, pending: seq<Byte>, step: UploadStep, p: Progress)
    requires InStep(s0, s, final, pending, step, p)
    ensures InBounds(|pending|, p)
  {
  }

  // One turn of the loop below: what the answers so far say of the step taken.
  lemma ChunkTurn(offset: nat, len: nat, final: bool, answers: seq<Answer>, answer: Answer, step: UploadStep,
                  q: Progress)
    requires AllGoOn(offset, len, final, answers)
    requires (step, q) == Decide(offset, len, final, Progressed(offset, len, final, answers), answer)
    ensures var longer := answers + [answer];
            && longer[..|longer| - 1] == answers && NoneEnds(offset, len, final, answers)
            && q == Progressed(offset, len, final, longer) && step == StepAfter(offset, len, final, longer)
            && (AllGoOn(offset, len, final, longer) <==> GoesOn(step))
            && (step.kind == Done || step.kind == Accepted <==> Succeeds(offset, len, final, longer))
            && (step.kind == Done ==> answer == Completed)
            && (step.kind == Fail ==> Fails(offset, len, final, longer))
            && (step.ambiguous <==> step.kind == Fail && final && exists a <- longer :: Doubtful(a))
    ensures answer == (if final then Completed else Holds(Some(offset + len))) ==>
      step.kind == Done || step.kind == Accepted
  {
    hide Decide, Fails, Progressed, StepAfter, AllGoOn;
    var longer := answers + [answer];
    assert longer[..|longer| - 1] == answers;
    OneAnswerMore(offset, len, final, answers, answer);
    EndsAsTold(offset, len, final, answers);
    EndsAsTold(offset, len, final, longer);
    AmbiguityIsExact(offset, len, final, longer);
  }

  // A chunk that goes on, and one that has ended.
  ghost predicate InChunkCall(s0: Store, s: Store, final: bool, pending: seq<Byte>, step: UploadStep, p: Progress,
                              asks: seq<SessionRequest>, replies: seq<UploadReply>, answers: seq<Answer>) {
    && InStep(s0, s, final, pending, step, p)
    && Asked(|s0.held|, final, pending, asks, answers) && Meant(replies, answers)
    && AllGoOn(|s0.held|, |pending|, final, answers)
    && p == Progressed(|s0.held|, |pending|, final, answers)
    && step == StepAfter(|s0.held|, |pending|, final, answers)
  }

  ghost predicate ChunkEnded(s0: Store, s: Store, final: bool, pending: seq<Byte>, step: UploadStep,
                             asks: seq<SessionRequest>, replies: seq<UploadReply>, answers: seq<Answer>) {
    && Sending(s0, s, final, pending) && !GoesOn(step) && answers != []
    && Asked(|s0.held|, final, pending, asks, answers) && Meant(replies, answers) && |replies| == |answers|
    && NoneEnds(|s0.held|, |pending|, final, answers[..|answers| - 1])
    && (if step.kind == Fail then Fails(|s0.held|, |pending|, final, answers)
        else Succeeds(|s0.held|, |pending|, final, answers))
    && (step.kind == Done ==> final && s.Done() && replies[|replies| - 1].transportOk)
    && (step.kind == Accepted ==> !final && s.held == s0.held + pending)
    && (step.kind == Fail && s.Done() ==> step.ambiguous)
    && (step.ambiguous <==> step.kind == Fail && final && exists a <- answers :: Doubtful(a))
  }

  lemma ChunkRound(s0: Store, mid: Store, s: Store, final: bool, pending: seq<Byte>, step: UploadStep, p: Progress,
                   asks: seq<SessionRequest>, replies: seq<UploadReply>, answers: seq<Answer>,
                   reply: UploadReply, answer: Answer, next: UploadStep, q: Progress)
    requires InChunkCall(s0, mid, final, pending, step, p, asks, replies, answers) && p.skip <= |pending|
    requires Means(reply, answer) && (next, q) == Decide(|s0.held|, |pending|, final, p, answer)
    requires if GoesOn(next) then InStep(s0, s, final, pending, next, q) else Ended(s0, s, final, pending, next)
    ensures var asks', replies', answers' :=
              asks + [RequestFor(s0, final, pending, step, p)], replies + [reply], answers + [answer];
            if GoesOn(next) then InChunkCall(s0, s, final, pending, next, q, asks', replies', answers')
            else ChunkEnded(s0, s, final, pending, next, asks', replies', answers')
    ensures answer == (if final then Completed else Holds(Some(|s0.held| + |pending|))) ==>
      !GoesOn(next) && next.kind != Fail
  {
    hide InStep, Ended, Sending, Asked, Means, Decide, Progressed, StepAfter, AllGoOn, NoneEnds, Succeeds, Fails;
    hide RequestFor, RequestAfter;
    StepInBounds(s0, mid, final, pending, step, p);
    AskIsTold(s0, final, pending, answers, step, p);
    ChunkTurn(|s0.held|, |pending|, final, answers, answer, next, q);
    OneMeantMore(replies, answers, reply, answer);
    OneAskMore(|s0.held|, final, pending, asks, answers, RequestFor(s0, final, pending, step, p), answer);
    if !GoesOn(next) {
      HowItEnded(s0, s, final, pending, next);
      if next.kind == Done {
        CompletedIsAnswered(reply);
      }
    }
  }

  lemma ChunkCallBegins(s: Store, final: bool, pending: seq<Byte>)
    requires !s.Done() && pending != [] && |s.held| % CHUNK_MULTIPLE == 0
    requires !final ==> |pending| % CHUNK_MULTIPLE == 0
    ensures InChunkCall(s, s, final, pending, UploadStep(Send, false, false), FRESH, [], [], [])
    ensures Spent(final, FRESH) == 0
  {
    NothingMeant(|s.held|, final, pending);
    NoAnswerYet(|s.held|, |pending|, final);
    ChunkBegins(s, final, pending);
  }

  lemma CallInBounds(s0: Store, s: Store, final: bool, pending: seq<Byte>, step: UploadStep, p: Progress,
                     asks: seq<SessionRequest>, replies: seq<UploadReply>, answers: seq<Answer>)
    requires InChunkCall(s0, s, final, pending, step, p, asks, replies, answers)
    ensures InStep(s0, s, final, pending, step, p) && InBounds(|pending|, p) && p.skip <= |pending|
    ensures answers == [] ==> step.kind == Send && p == FRESH
  {
  }

  // One turn of the loop below.
  method SendOnce(drive: Drive, buf: ChunkedUploadBuffer, final: bool, state: ChunkUploadState, step: UploadStep,
                  ghost s0: Store, ghost asks: seq<SessionRequest>, ghost replies: seq<UploadReply>,
                  ghost answers: seq<Answer>)
    returns (next: UploadStep, reply: UploadReply, ghost ask: SessionRequest, ghost answer: Answer)
    requires buf.Valid() && (!final ==> |buf.pending| % CHUNK_MULTIPLE == 0)
    requires |s0.held| == buf.offset && buf.pending != []
    requires InChunkCall(s0, drive.store, final, buf.pending, step, state.Value(), asks, replies, answers)
    modifies drive, state
    ensures drive.requests == old(drive.requests) + 1 && drive.history == old(drive.history)
    ensures drive.asks == old(drive.asks) + [ask] && drive.replies == old(drive.replies) + [reply]
    ensures GoesOn(next) ==>
      && InChunkCall(s0, drive.store, final, buf.pending, next, state.Value(), asks + [ask], replies + [reply],
                     answers + [answer])
      && Closer(state.Value(), old(state.Value()))
      && Spent(final, state.Value()) >= Spent(final, old(state.Value())) + 1
    ensures !GoesOn(next) ==>
      ChunkEnded(s0, drive.store, final, buf.pending, next, asks + [ask], replies + [reply], answers + [answer])
    ensures drive.failures >= old(drive.failures)
    ensures answers == [] && drive.failures == old(drive.failures) ==> !GoesOn(next) && next.kind != Fail
  {
    hide Spent, Closer, InStep, Sending, Ended, Decide, Means, RequestFor, InChunkCall, ChunkEnded;
    CallInBounds(s0, drive.store, final, buf.pending, step, state.Value(), asks, replies, answers);
    ghost var mid, p := drive.store, state.Value();
    ask := RequestFor(s0, final, buf.pending, step, p);
    next, reply, answer := Exchange(drive, buf, final, state, step, s0);
    ChunkRound(s0, mid, drive.store, final, buf.pending, step, p, asks, replies, answers, reply, answer, next,
               state.Value());
  }

  method UploadChunk(drive: Drive, buf: ChunkedUploadBuffer, final: bool)
    returns (resp: DriveResponse, ghost asks: seq<SessionRequest>, ghost replies: seq<UploadReply>,
             ghost answers: seq<Answer>)
    requires buf.Valid() && buf.pending != [] && (!final ==> |buf.pending| % CHUNK_MULTIPLE == 0)
    requires |drive.store.held| == buf.offset && !drive.store.Done()
    modifies drive
    ensures Sending(old(drive.store), drive.store, final, buf.pending)
    ensures resp.ok && !final ==> drive.store.held == old(drive.store).held + buf.pending
    ensures resp.ok && final ==> drive.store.Done()
    ensures !resp.ok && drive.store.Done() ==> resp.maybeApplied
    ensures resp.maybeApplied ==> final && !resp.ok
    ensures drive.requests <= old(drive.requests) + RequestBound(final, |buf.pending|)
    // It goes on until the first answer that ends the chunk, and the last
    // answer decides how.
    ensures drive.requests == old(drive.requests) + |answers| && drive.history == old(drive.history)
    ensures drive.asks == old(drive.asks) + asks && Asked(buf.offset, final, buf.pending, asks, answers)
    ensures drive.replies == old(drive.replies) + replies && Meant(replies, answers)
    ensures answers != [] && NoneEnds(buf.offset, |buf.pending|, final, answers[..|answers| - 1])
    ensures if resp.ok then Succeeds(buf.offset, |buf.pending|, final, answers)
            else Fails(buf.offset, |buf.pending|, final, answers)
    ensures var last := replies[|replies| - 1];
            resp.status == if resp.ok && !final then 308 else if last.transportOk then last.status else 0
    ensures resp.maybeApplied <==> !resp.ok && final && exists a <- answers :: Doubtful(a)
    ensures drive.failures >= old(drive.failures) && (!resp.ok ==> drive.failures > old(drive.failures))
  {
    hide Spent, Sending, NoneEnds, Succeeds, Fails, Meant, Asked, InChunkCall, RequestBound, Doubtful;
    var state := new ChunkUploadState();
    var step, reply := UploadStep(Send, false, false), UploadReply(false, 0, "", false);
    ghost var s0, said, heard := drive.store, drive.asks, drive.replies;
    asks, replies, answers := [], [], [];
    ChunkCallBegins(s0, final, buf.pending);
    while true
      invariant unchanged(buf) && fresh(state)
      invariant InChunkCall(s0, drive.store, final, buf.pending, step, state.Value(), asks, replies, answers)
      invariant drive.requests <= old(drive.requests) + Spent(final, state.Value())
      invariant drive.requests == old(drive.requests) + |answers| && drive.history == old(drive.history)
      invariant drive.asks == said + asks && drive.replies == heard + replies
      invariant drive.failures >= old(drive.failures) && (answers != [] ==> drive.failures > old(drive.failures))
      decreases |buf.pending| - state.skip, MAX_CHUNK_ATTEMPTS - state.failures, MAX_CHUNK_ATTEMPTS - state.stalls
    {
      CallInBounds(s0, drive.store, final, buf.pending, step, state.Value(), asks, replies, answers);
      SpentIsBounded(final, |buf.pending|, state.Value());
      ghost var ask, answer;
      step, reply, ask, answer := SendOnce(drive, buf, final, state, step, s0, asks, replies, answers);
      asks, replies, answers := asks + [ask], replies + [reply], answers + [answer];
      match step.kind
      case Done => return DriveResponse(true, reply.status, OtherError, false, 0), asks, replies, answers;
      case Accepted => return DriveResponse(true, 308, OtherError, false, 0), asks, replies, answers;
      case Send => continue;
      case AskStatus => continue;
      case Fail =>
        var kind := if step.ambiguous || !reply.transportOk || reply.retryable then Transient else OtherError;
        resp := DriveResponse(false, if reply.transportOk then reply.status else 0, kind, step.ambiguous, 0);
        return;
    }
  }
}
