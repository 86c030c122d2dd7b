// Drive as a writer sees it: a set of file ids, a log of the contents made
// visible, and one resumable upload session. The server is adversarial within
// its contract: each request is applied or not, and any answer may be lost.
module DriveServer {
  import opened Options
  import opened UploadPlan

  type Id = nat

  // A content that became visible, and the file it became visible as.
  datatype Publication = Publication(id: Id, content: seq<Byte>)

  datatype Store = Store(
    ids: set<Id>,
    log: seq<Publication>,
    target: Option<Id>,   // what the open session overwrites, if anything
    held: seq<Byte>,      // the prefix the open session holds
    published: Option<Id>) // the file the open session published, if it did
  {
    predicate Done() { published.Some? }

    function Publish(id: Id, content: seq<Byte>): Store {
      this.(ids := ids + {id}, log := log + [Publication(id, content)])
    }
  }

  // `content` appears once, as the named file or as a file of a new id.
  ghost predicate Publishes(s: Store, existing: Option<Id>, content: seq<Byte>, s': Store) {
    exists id :: MayPublishAs(s, existing, id) && s' == s.Publish(id, content)
  }

  predicate MayPublishAs(s: Store, existing: Option<Id>, id: Id) {
    match existing
    case Some(wanted) => id == wanted && id in s.ids
    case None => id !in s.ids
  }

  // ----- Ordinary requests -----

  datatype Request =
    | Fetch(id: Id)
    | ReserveId
    | Create(reserved: Option<Id>, content: seq<Byte>)
    | Replace(id: Id, content: seq<Byte>)
    | StartSession(existing: Option<Id>)
    | Delete(id: Id)

  datatype ErrorKind = Unauthenticated | RateLimit | Transient | NotFound | OtherError

  // `located`: with a usable Location, which the start of a session needs.
  datatype Reply = Lost | Reply(status: int, kind: ErrorKind, id: Id, located: bool := false)

  // The effect of a request, when it can be applied at all; `newId` is the id
  // Drive picks for a file whose id was not reserved.
  function Apply(s: Store, req: Request, newId: Id): Option<Store> {
    match req
    case Fetch(_) => None
    case ReserveId => None
    case Create(None, content) => if newId in s.ids then None else Some(s.Publish(newId, content))
    case Create(Some(id), content) => if id in s.ids then None else Some(s.Publish(id, content))
    case Replace(id, content) => if id in s.ids then Some(s.Publish(id, content)) else None
    case StartSession(existing) => Some(s.(target := existing, held := [], published := None))
    case Delete(id) => if id in s.ids then Some(s.(ids := s.ids - {id})) else None
  }

  ghost predicate Applies(s: Store, req: Request, s': Store) {
    exists newId :: Apply(s, req, newId) == Some(s')
  }

  predicate IsSuccess(status: int) { status == 200 || status == 204 }

  // An answer Drive may give. One to a request that was applied is a success
  // or a 5xx, never a 401; a success proves the request was applied or, for a
  // read, that what it read is there.
  predicate MayAnswer(s: Store, req: Request, applied: bool, reply: Reply) {
    reply.Reply? ==>
      && reply.status >= 100
      && (applied ==> IsSuccess(reply.status) || reply.kind == Transient)
      && (IsSuccess(reply.status) ==>
            match req
            case Fetch(id) => id in s.ids
            case ReserveId => reply.id !in s.ids
            case _ => applied)
  }

  ghost predicate Serves(s: Store, req: Request, s': Store, reply: Reply) {
    || (s' == s && MayAnswer(s, req, false, reply))
    || (Applies(s, req, s') && MayAnswer(s, req, true, reply))
  }

  // Requests whose second application can only find the first one's work.
  predicate RepeatSafe(req: Request) {
    !req.Replace? && !(req.Create? && req.reserved.None?)
  }

  // Repeating a RepeatSafe request is the same as sending it once ...
  lemma RepeatIsOnce(s: Store, req: Request, s': Store, s'': Store)
    requires RepeatSafe(req)
    requires (s' == s || Applies(s, req, s')) && (s'' == s' || Applies(s', req, s''))
    ensures s'' == s || Applies(s, req, s'')
    ensures Applies(s', req, s'') ==> Applies(s, req, s'')
  {
  }

  // ... and repeating any other that can be applied at all publishes twice.
  lemma RepeatIsTwice(s: Store, req: Request) returns (s': Store, s'': Store)
    requires !RepeatSafe(req) && (req.Replace? ==> req.id in s.ids)
    ensures Applies(s, req, s') && Applies(s', req, s'')
    ensures |s''.log| == |s.log| + 2
  {
    var one := Bound(s.ids);
    s' := Apply(s, req, one).value;
    var two := Bound(s'.ids);
    s'' := Apply(s', req, two).value;
  }

  ghost function Bound(ids: set<Id>): (bound: Id)
    ensures forall id :: id in ids ==> id < bound
  {
    if ids == {} then 0
    else
      var some :| some in ids;
      var rest := Bound(ids - {some});
      assert forall id :: id in ids ==> id == some || id in ids - {some};
      if some < rest then rest else some + 1
  }

  // ----- Requests to a resumable session -----

  datatype SessionRequest =
    | Put(start: nat, data: seq<Byte>, total: Option<nat>)
    | Query(total: Option<nat>)

  // What Drive demands of a request that carries data: it continues the
  // session where it ends; a chunk that is not the last one lies on 256 KiB
  // boundaries; the last one reaches the total. Neither is empty.
  predicate WellFormed(s: Store, req: SessionRequest) {
    req.Put? ==>
      && req.start == |s.held| && req.data != []
      && (req.total.None? ==> req.start % CHUNK_MULTIPLE == 0 && |req.data| % CHUNK_MULTIPLE == 0)
      && (req.total.Some? ==> req.total.value == req.start + |req.data|)
  }

  // The session takes the first `taken` bytes of what the request carries.
  function Take(s: Store, req: SessionRequest, taken: nat): (s': Store)
    ensures s' == s.(held := s'.held) && s.held <= s'.held
  {
    if req.Put? && taken <= |req.data| && !s.Done() then s.(held := s.held + req.data[..taken]) else s
  }

  // Told the total and holding that much, it may publish, as file `id`, once.
  function Complete(s: Store, req: SessionRequest, id: Id): Option<Store> {
    if !s.Done() && req.total == Some(|s.held|) && MayPublishAs(s, s.target, id)
    then Some(s.Publish(id, s.held).(published := Some(id)))
    else None
  }

  // A request that published is answered 200, 201, 5xx or not at all; only a
  // session that has published answers 200 or 201; one that has not may answer
  // 308, with what it holds or with an unreadable Range.
  ghost predicate MayAnswerSession(s: Store, published: bool, reply: UploadReply) {
    reply.transportOk ==>
      && (published ==> reply.status == 200 || reply.status == 201 || reply.status >= 500)
      && (reply.status == 200 || reply.status == 201 ==> s.Done())
      && (reply.status == 308 ==> !s.Done() && forall n :: RangeSays(reply.range, n) ==> n == |s.held|)
  }

  ghost predicate ServesSession(s: Store, req: SessionRequest, s': Store, reply: UploadReply) {
    exists taken ::
      var t := Take(s, req, taken);
      || (s' == t && MayAnswerSession(s', false, reply))
      || ((exists id :: Complete(t, req, id) == Some(s')) && MayAnswerSession(s', true, reply))
  }

  // The answer a request is meant to get: all of a chunk that is not the last
  // one is held, and the last one completes the file.
  ghost predicate Prompt(req: SessionRequest, reply: UploadReply) {
    && reply.transportOk
    && (if req.total.Some? then reply.status == 200 || reply.status == 201
        else reply.status == 308 && (req.Put? ==> RangeSays(reply.range, req.start + |req.data|)))
  }

  predicate Worked(req: Request, reply: Reply) {
    reply.Reply? && IsSuccess(reply.status) && (req.StartSession? ==> reply.located)
  }

  // One ordinary request as it went over the wire.
  datatype Sent = Sent(token: string, req: Request, reply: Reply)

  class Drive {
    var store: Store
    var requests: nat
    // What was exchanged so far, and how often something went wrong: no token
    // could be had, or a request did not get the answer it is meant to get.
    ghost var history: seq<Sent>
    ghost var asks: seq<SessionRequest>
    ghost var replies: seq<UploadReply>
    ghost var failures: nat

    constructor (ids: set<Id>)
      ensures store == Store(ids, [], None, [], None) && requests == 0 && failures == 0
      ensures history == [] && asks == [] && replies == []
    {
      store := Store(ids, [], None, [], None);
      requests, history, asks, replies, failures := 0, [], [], [], 0;
    }

    // A bearer token, or None when obtaining one throws. Which one, and
    // whether, is the token source's business; see TokenSource.
    method AskToken() returns (token: Option<string>)
      modifies `failures
      ensures failures == old(failures) + if token.None? then 1 else 0
    {
      token := *;
      if token.None? {
        failures := failures + 1;
      }
    }

    // One HTTP exchange, with any legal outcome.
    method Http(token: string, req: Request) returns (reply: Reply)
      modifies this
      ensures Serves(old(store), req, store, reply)
      ensures requests == old(requests) + 1 && replies == old(replies)
      ensures history == old(history) + [Sent(token, req, reply)]
      ensures failures == old(failures) + if Worked(req, reply) then 0 else 1
    {
      requests := requests + 1;
      var arrives: bool, newId: Id := *, *;
      var effect := Apply(store, req, newId);
      var applied := arrives && effect.Some?;
      reply := *;
      if !MayAnswer(store, req, applied, reply) {
        reply := Lost;
      }
      if applied {
        store := effect.value;
      }
      history := history + [Sent(token, req, reply)];
      failures := failures + if Worked(req, reply) then 0 else 1;
    }

    // One exchange with the open session, with any legal outcome.
    method Session(req: SessionRequest) returns (reply: UploadReply)
      requires WellFormed(store, req)
      modifies this
      ensures ServesSession(old(store), req, store, reply)
      ensures requests == old(requests) + 1 && history == old(history)
      ensures asks == old(asks) + [req] && replies == old(replies) + [reply]
      ensures failures == old(failures) + if Prompt(req, reply) then 0 else 1
    {
      requests := requests + 1;
      var taken: nat, completes: bool, id: Id := *, *, *;
      var taking := Take(store, req, taken);
      var completed := Complete(taking, req, id);
      var published := completes && completed.Some?;
      store := if published then completed.value else taking;
      reply := *;
      var readable, next := ParseDriveRangeNext(reply.range);
      if readable {
        forall n | RangeSays(reply.range, n)
          ensures n == next
        {
          RangeSaysOneThing(reply.range, n, next);
        }
      }
      var success := reply.status == 200 || reply.status == 201;
      if (published && !success && reply.status < 500) || (success && !store.Done())
        || (reply.status == 308 && (store.Done() || (readable && next != |store.held|)))
      {
        reply := reply.(transportOk := false);
      }
      asks, replies := asks + [req], replies + [reply];
      failures := failures + if Prompt(req, reply) then 0 else 1;
    }

    // DELETE on the session. It publishes nothing, whether or not it arrives.
    method CancelSession()
      modifies this`requests
      ensures requests == old(requests) + 1
    {
      requests := requests + 1;
    }
  }
}
