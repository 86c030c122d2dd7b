// The tokens of one credential, shared by any number of threads: a cache and a
// failure record under one lock, and a second lock held while minting. Each
// method of TokenStore is one critical section of one thread; a run is any
// interleaving of them.
module TokenSource {
  import opened Options
  import opened TokenPolicy

  const BACKOFF_SECONDS: int := 30

  type Tid = nat

  // A call for a token, or for another one than the rejected one.
  datatype Call = Call(maxAge: int, rejected: Option<string>)

  datatype Result = Token(token: string) | Error

  datatype Pc =
    | Waiting(call: Call)                             // for the mint lock
    | Locked(call: Call)                              // has it, and looks at the cache again
    | Cleared(call: Call)                             // will mint, unless a mint failed just now
    | Minting(call: Call)
    | Storing(call: Call, minted: CachedTokenState)
    | Done(result: Result)
  {
    predicate HoldsLock() { Locked? || Cleared? || Minting? || Storing? }
  }

  // What has happened so far.
  datatype Past = Past(
    seeded: bool,              // a pasted token was there first
    seen: set<string>,         // tokens the cache has held
    stored: nat,               // mints that succeeded
    rejected: set<string>,     // tokens Drive rejected
    stale: set<string>,        // tokens replaced because they were not fresh
    failures: set<int>)        // when mints failed

  datatype State = State(
    now: int,
    cached: Option<CachedTokenState>,
    failedUntil: Option<int>,
    holder: Option<Tid>,
    threads: map<Tid, Pc>,
    past: Past)

  datatype Step =
    | Tick(later: int)
    | BeginToken(tid: Tid, maxAge: int)
    | BeginRefresh(tid: Tid, maxAge: int, token: string)
    | Lock(tid: Tid)
    | Decide(tid: Tid)
    | Attempt(tid: Tid)
    | MintFails(tid: Tid)
    | MintReturns(tid: Tid, token: string, expiresAt: int)
    | Store(tid: Tid)

  ghost predicate IsFree(s: State, tid: Tid) { tid !in s.threads || s.threads[tid].Done? }

  // When a step can be taken. A mint returns a token never seen before.
  ghost predicate Enabled(s: State, step: Step) {
    match step
    case Tick(later) => s.now <= later <= INT64_MAX
    case BeginToken(tid, maxAge) => IsFree(s, tid) && maxAge <= INT64_MAX
    case BeginRefresh(tid, maxAge, _) => IsFree(s, tid) && maxAge <= INT64_MAX
    case Lock(tid) => tid in s.threads && s.threads[tid].Waiting? && s.holder.None?
    case Decide(tid) => tid in s.threads && s.threads[tid].Locked?
    case Attempt(tid) => tid in s.threads && s.threads[tid].Cleared?
    case MintFails(tid) => tid in s.threads && s.threads[tid].Minting?
    case MintReturns(tid, token, _) => tid in s.threads && s.threads[tid].Minting? && token !in s.past.seen
    case Store(tid) => tid in s.threads && s.threads[tid].Storing?
  }

  ghost predicate CacheHasFresh(s: State, maxAge: int)
    requires Bounded(s) && maxAge <= INT64_MAX
  {
    s.cached.Some? && TokenIsFresh(s.cached.value, s.now, maxAge)
  }

  ghost predicate Bounded(s: State) {
    s.now <= INT64_MAX && (s.cached.Some? ==> s.cached.value.mintedAt <= INT64_MAX)
  }

  // ----- What each critical section does -----

  ghost function Go(s: State, tid: Tid, pc: Pc): State { s.(threads := s.threads[tid := pc]) }

  // Returning lets go of the mint lock.
  ghost function Finish(s: State, tid: Tid, result: Result): State {
    s.(threads := s.threads[tid := Done(result)], holder := None)
  }

  ghost function Apply(s: State, step: Step, canMint: bool): State
    requires Bounded(s) && Capped(s) && Enabled(s, step)
  {
    match step
    case Tick(later) => s.(now := later)
    case BeginToken(tid, maxAge) =>
      if CacheHasFresh(s, maxAge) then Go(s, tid, Done(Token(s.cached.value.accessToken)))
      else if !canMint then Go(s, tid, Done(Token(if s.cached.Some? then s.cached.value.accessToken else "")))
      else Go(s, tid, Waiting(Call(maxAge, None)))
    case BeginRefresh(tid, maxAge, token) =>
      Go(s, tid, Waiting(Call(maxAge, Some(token)))).(past := s.past.(rejected := s.past.rejected + {token}))
    case Lock(tid) => Go(s, tid, Locked(s.threads[tid].call)).(holder := Some(tid))
    case Decide(tid) =>
      var call := s.threads[tid].call;
      match call.rejected {
        case None =>
          if CacheHasFresh(s, call.maxAge) then Finish(s, tid, Token(s.cached.value.accessToken))
          else Go(s, tid, Cleared(call))
        case Some(rejected) =>
          match DecideAfterRejection(s.cached, rejected, s.now, call.maxAge, canMint) {
            case REUSE_CACHED => Finish(s, tid, Token(s.cached.value.accessToken))
            case GIVE_UP => Finish(s, tid, Token(""))
            case MINT => Go(s, tid, Cleared(call))
          }
      }
    case Attempt(tid) =>
      if s.failedUntil.Some? && s.failedUntil.value > s.now then Finish(s, tid, Error)
      else Go(s, tid, Minting(s.threads[tid].call)).(failedUntil := None)
    case MintFails(tid) =>
      Finish(s, tid, Error).(failedUntil := Some(s.now + BACKOFF_SECONDS),
                             past := s.past.(failures := s.past.failures + {s.now}))
    case MintReturns(tid, token, expiresAt) =>
      Go(s, tid, Storing(s.threads[tid].call, CachedTokenState(token, expiresAt, s.now)))
    case Store(tid) =>
      var minted := s.threads[tid].minted;
      Finish(s, tid, Token(minted.accessToken)).(cached := Some(minted), past := s.past.(
        seen := s.past.seen + {minted.accessToken}, stored := s.past.stored + 1,
        stale := s.past.stale + ReplacedStale(s, s.threads[tid].call.maxAge)))
  }

  ghost function ReplacedStale(s: State, maxAge: int): set<string>
    requires Bounded(s) && maxAge <= INT64_MAX
  {
    if s.cached.Some? && !CacheHasFresh(s, maxAge) then {s.cached.value.accessToken} else {}
  }

  ghost predicate CallCapped(pc: Pc) { !pc.Done? ==> pc.call.maxAge <= INT64_MAX }

  ghost predicate Capped(s: State) { forall tid <- s.threads :: CallCapped(s.threads[tid]) }

  // ----- The invariant -----

  ghost predicate LockIsExclusive(s: State) {
    && (forall tid <- s.threads :: s.threads[tid].HoldsLock() ==> s.holder == Some(tid))
    && (s.holder.Some? ==> s.holder.value in s.threads && s.threads[s.holder.value].HoldsLock())
  }

  // Nothing usable for this call is cached.
  ghost predicate NothingToReuse(s: State, call: Call)
    requires Bounded(s) && call.maxAge <= INT64_MAX
  {
    CacheHasFresh(s, call.maxAge) ==> call.rejected == Some(s.cached.value.accessToken)
  }

  ghost predicate ThreadOk(s: State, pc: Pc)
    requires Bounded(s) && CallCapped(pc)
  {
    && (!pc.Done? && pc.call.rejected.Some? ==> pc.call.rejected.value in s.past.rejected)
    && (pc.Cleared? || pc.Minting? || pc.Storing? ==> NothingToReuse(s, pc.call))
    && (pc.Storing? ==> pc.minted.accessToken !in s.past.seen && pc.minted.mintedAt <= s.now)
  }

  ghost function Current(s: State): set<string> {
    if s.cached.Some? then {s.cached.value.accessToken} else {}
  }

  // Every token once held is cached now, or was rejected, or went stale.
  ghost predicate Accounted(s: State) {
    && Current(s) <= s.past.seen
    && s.past.seen - Current(s) <= s.past.rejected + s.past.stale
    && |s.past.seen| == s.past.stored + (if s.past.seeded then 1 else 0)
    && (s.past.seen != {} ==> s.cached.Some?)
  }

  // The failure record ends 30 seconds after some failure, and none less than
  // 30 seconds old is forgotten.
  ghost predicate BackedOff(s: State) {
    && (s.failedUntil.Some? ==> s.failedUntil.value - BACKOFF_SECONDS in s.past.failures)
    && (forall f <- s.past.failures ::
          && f <= s.now
          && (f + BACKOFF_SECONDS <= s.now || (s.failedUntil.Some? && f + BACKOFF_SECONDS <= s.failedUntil.value)))
  }

  ghost predicate Inv(s: State) {
    && Bounded(s) && Capped(s) && LockIsExclusive(s)
    && (forall tid <- s.threads :: ThreadOk(s, s.threads[tid]))
    && Accounted(s) && BackedOff(s)
  }

  ghost function Init(now: int, seed: Option<string>): State {
    State(now, if seed.Some? then Some(CachedTokenState(seed.value, UNKNOWN_EXPIRY, now)) else None, None, None, map[],
          Past(seed.Some?, if seed.Some? then {seed.value} else {}, 0, {}, {}, {}))
  }

  lemma BoundsKept(s: State, step: Step, canMint: bool)
    requires Inv(s) && Enabled(s, step)
    ensures var after := Apply(s, step, canMint); Bounded(after) && Capped(after)
  {
    if step.Store? {
      assert ThreadOk(s, s.threads[step.tid]);
    }
  }

  lemma LockKept(s: State, step: Step, canMint: bool)
    requires Bounded(s) && Capped(s) && LockIsExclusive(s) && Enabled(s, step)
    ensures LockIsExclusive(Apply(s, step, canMint))
  {
  }

  // A thread that does not move keeps its facts, if it has the lock or needs
  // nothing of the cache.
  lemma ThreadStays(s: State, after: State, pc: Pc)
    requires Bounded(s) && Bounded(after) && CallCapped(pc) && ThreadOk(s, pc)
    requires s.now <= after.now && s.past.rejected <= after.past.rejected
    requires pc.HoldsLock() ==> after.cached == s.cached && after.past.seen == s.past.seen
    ensures ThreadOk(after, pc)
  {
  }

  lemma OthersKept(s: State, step: Step, canMint: bool, tid: Tid)
    requires Inv(s) && Enabled(s, step) && tid in s.threads && (step.Tick? || step.tid != tid)
    ensures var after := Apply(s, step, canMint); Bounded(after) && ThreadOk(after, s.threads[tid])
  {
    BoundsKept(s, step, canMint);
    assert ThreadOk(s, s.threads[tid]) && CallCapped(s.threads[tid]);
    if step.Store? {
      assert s.threads[step.tid].HoldsLock();
    }
    ThreadStays(s, Apply(s, step, canMint), s.threads[tid]);
  }

  lemma MoverKept(s: State, step: Step, canMint: bool)
    requires Inv(s) && Enabled(s, step) && !step.Tick?
    ensures var after := Apply(s, step, canMint);
            Bounded(after) && Capped(after) && ThreadOk(after, after.threads[step.tid])
  {
    BoundsKept(s, step, canMint);
    if step.tid in s.threads {
      assert ThreadOk(s, s.threads[step.tid]);
    }
  }

  lemma ThreadsKept(s: State, step: Step, canMint: bool)
    requires Inv(s) && Enabled(s, step)
    ensures var after := Apply(s, step, canMint);
            Bounded(after) && Capped(after) && forall tid <- after.threads :: ThreadOk(after, after.threads[tid])
  {
    BoundsKept(s, step, canMint);
    var after := Apply(s, step, canMint);
    forall tid <- after.threads ensures ThreadOk(after, after.threads[tid]) {
      if !step.Tick? && step.tid == tid {
        MoverKept(s, step, canMint);
      } else {
        OthersKept(s, step, canMint, tid);
        assert after.threads[tid] == s.threads[tid];
      }
    }
  }

  lemma AccountsStay(s: State, after: State)
    requires Accounted(s) && after.cached == s.cached && s.past.rejected <= after.past.rejected
    requires after.past == s.past.(rejected := after.past.rejected, failures := after.past.failures)
    ensures Accounted(after)
  {
  }

  lemma StoreIsAccounted(s: State, tid: Tid, canMint: bool)
    requires Bounded(s) && Capped(s) && Accounted(s) && Enabled(s, Store(tid)) && ThreadOk(s, s.threads[tid])
    ensures Accounted(Apply(s, Store(tid), canMint))
  {
    var after := Apply(s, Store(tid), canMint);
    assert after.past.seen - Current(after) == s.past.seen;
    forall x <- s.past.seen ensures x in after.past.rejected + after.past.stale {
      if x !in Current(s) {
        assert x in s.past.seen - Current(s);
      }
    }
  }

  lemma AccountsKept(s: State, step: Step, canMint: bool)
    requires Inv(s) && Enabled(s, step)
    ensures Accounted(Apply(s, step, canMint))
  {
    if step.Store? {
      StoreIsAccounted(s, step.tid, canMint);
    } else {
      hide Accounted, LockIsExclusive, BackedOff;
      AccountsStay(s, Apply(s, step, canMint));
    }
  }

  lemma BackoffKept(s: State, step: Step, canMint: bool)
    requires Bounded(s) && Capped(s) && BackedOff(s) && Enabled(s, step)
    ensures BackedOff(Apply(s, step, canMint))
  {
  }

  lemma StepKeepsInv(s: State, step: Step, canMint: bool)
    requires Inv(s) && Enabled(s, step)
    ensures Inv(Apply(s, step, canMint))
  {
    BoundsKept(s, step, canMint);
    LockKept(s, step, canMint);
    ThreadsKept(s, step, canMint);
    AccountsKept(s, step, canMint);
    BackoffKept(s, step, canMint);
  }

  // ----- Whole runs -----

  // A step that cannot be taken is passed over.
  ghost function After(s: State, step: Step, canMint: bool): State
    requires Bounded(s) && Capped(s)
  {
    if Enabled(s, step) then Apply(s, step, canMint) else s
  }

  ghost function RejectedBy(s: State, step: Step): set<string> {
    if step.BeginRefresh? && Enabled(s, step) then {step.token} else {}
  }

  lemma AfterKeeps(s: State, step: Step, canMint: bool)
    requires Inv(s)
    ensures Inv(After(s, step, canMint))
  {
    if Enabled(s, step) {
      StepKeepsInv(s, step, canMint);
      hide Inv;
    }
  }

  lemma AfterRecords(s: State, step: Step, canMint: bool)
    requires Bounded(s) && Capped(s)
    ensures After(s, step, canMint).past.seeded == s.past.seeded
    ensures After(s, step, canMint).past.rejected == s.past.rejected + RejectedBy(s, step)
  {
  }

  // Any interleaving.
  ghost function Run(now: int, seed: Option<string>, canMint: bool, steps: seq<Step>): (s: State)
    requires now <= INT64_MAX
    ensures Inv(s) && s.past.seeded == seed.Some?
    decreases |steps|
  {
    if steps == [] then Init(now, seed)
    else
      var n := |steps| - 1;
      var before := Run(now, seed, canMint, steps[..n]);
      AfterKeeps(before, steps[n], canMint);
      AfterRecords(before, steps[n], canMint);
      After(before, steps[n], canMint)
  }

  // One thread mints at a time, and only while nothing is cached that it could
  // use: no fresh token, or just the one that was rejected.
  lemma MintsOnlyWhenNeeded(now: int, seed: Option<string>, canMint: bool, steps: seq<Step>, tid: Tid)
    requires now <= INT64_MAX
    ensures var s := Run(now, seed, canMint, steps);
            tid in s.threads && s.threads[tid].Minting? ==>
              && s.holder == Some(tid)
              && s.threads[tid].call.maxAge <= INT64_MAX
              && (CacheHasFresh(s, s.threads[tid].call.maxAge) ==>
                    s.threads[tid].call.rejected == Some(s.cached.value.accessToken))
              && forall other <- s.threads :: s.threads[other].Minting? ==> other == tid
  {
  }

  // One mint to begin with, unless a token was pasted, and one for every token
  // that was rejected or went stale.
  lemma MintsAreBounded(now: int, seed: Option<string>, canMint: bool, steps: seq<Step>)
    requires now <= INT64_MAX
    ensures var past := Run(now, seed, canMint, steps).past;
            && past.stored <= |past.rejected + past.stale| + (if seed.Some? then 0 else 1)
            && (past.stale == {} ==> past.stored <= 1 + |past.rejected|)
            && past.rejected == Rejections(now, seed, canMint, steps)
  {
    var s := Run(now, seed, canMint, steps);
    assert s.past.seen == Current(s) + (s.past.seen - Current(s));
    FewerMembers(s.past.seen - Current(s), s.past.rejected + s.past.stale);
    assert s.past.stale == {} ==> s.past.rejected + s.past.stale == s.past.rejected;
    RejectionsAre(now, seed, canMint, steps);
  }

  // The tokens that threads came back with.
  ghost function Rejections(now: int, seed: Option<string>, canMint: bool, steps: seq<Step>): set<string>
    requires now <= INT64_MAX
    decreases |steps|
  {
    if steps == [] then {}
    else
      var n := |steps| - 1;
      Rejections(now, seed, canMint, steps[..n]) + RejectedBy(Run(now, seed, canMint, steps[..n]), steps[n])
  }

  lemma {:induction false} RejectionsAre(now: int, seed: Option<string>, canMint: bool, steps: seq<Step>)
    requires now <= INT64_MAX
    ensures Run(now, seed, canMint, steps).past.rejected == Rejections(now, seed, canMint, steps)
    decreases |steps|
  {
    if steps != [] {
      var n := |steps| - 1;
      RejectionsAre(now, seed, canMint, steps[..n]);
      AfterRecords(Run(now, seed, canMint, steps[..n]), steps[n], canMint);
    }
  }

  // A mint starts exactly when none failed in the last 30 seconds.
  lemma BacksOffExactly(now: int, seed: Option<string>, canMint: bool, steps: seq<Step>, tid: Tid)
    requires now <= INT64_MAX && Enabled(Run(now, seed, canMint, steps), Attempt(tid))
    ensures var s := Run(now, seed, canMint, steps);
            var after := Apply(s, Attempt(tid), canMint).threads[tid];
            && (after.Minting? || after == Done(Error))
            && (after.Minting? <==> forall f <- s.past.failures :: f + BACKOFF_SECONDS <= s.now)
  {
  }

  // ----- What a call is given -----

  // The call that the thread taking this step is making.
  ghost function CallOf(s: State, step: Step): Call
    requires Enabled(s, step)
  {
    if step.BeginToken? then Call(step.maxAge, None)
    else if step.BeginRefresh? then Call(step.maxAge, Some(step.token))
    else if step.Tick? then Call(0, None)
    else s.threads[step.tid].call
  }

  // The cached token, if it is fresh for the call and not the rejected one.
  ghost predicate Reuses(s: State, call: Call, token: string)
    requires Bounded(s) && call.maxAge <= INT64_MAX
  {
    && s.cached.Some? && s.cached.value.accessToken == token
    && TokenIsFresh(s.cached.value, s.now, call.maxAge) && call.rejected != Some(token)
  }

  // A token minted for this call, never held before, and cached now.
  ghost predicate GetsMinted(s: State, after: State, token: string) {
    && token !in s.past.seen && after.past.stored == s.past.stored + 1
    && after.cached.Some? && after.cached.value.accessToken == token && after.cached.value.mintedAt <= s.now
  }

  // Where nothing can be minted: to a first call whatever is cached, to a
  // rejection nothing.
  function Leftover(cached: Option<CachedTokenState>, call: Call): string {
    if call.rejected.None? && cached.Some? then cached.value.accessToken else ""
  }

  ghost predicate FailedRecently(s: State) { exists f <- s.past.failures :: s.now < f + BACKOFF_SECONDS }

  // Whoever is on the way to a mint can mint.
  ghost predicate CanMint(pc: Pc, canMint: bool) {
    !pc.Done? && (pc.call.rejected.None? || pc.Cleared? || pc.Minting? || pc.Storing?) ==> canMint
  }

  ghost predicate AllCanMint(s: State, canMint: bool) {
    forall tid <- s.threads :: CanMint(s.threads[tid], canMint)
  }

  lemma {:induction false} OnlyMintersGoOn(now: int, seed: Option<string>, canMint: bool, steps: seq<Step>)
    requires now <= INT64_MAX
    ensures AllCanMint(Run(now, seed, canMint, steps), canMint)
    decreases |steps|
  {
    if steps != [] {
      var n := |steps| - 1;
      OnlyMintersGoOn(now, seed, canMint, steps[..n]);
      StepKeepsMinters(Run(now, seed, canMint, steps[..n]), steps[n], canMint);
    }
  }

  lemma StepKeepsMinters(s: State, step: Step, canMint: bool)
    requires Bounded(s) && Capped(s) && AllCanMint(s, canMint)
    ensures AllCanMint(After(s, step, canMint), canMint)
  {
    if Enabled(s, step) && !step.Tick? && step.tid in s.threads {
      assert CanMint(s.threads[step.tid], canMint);
    }
  }

  // In every run, whatever a thread comes back with is one of these: the cached
  // token, good for this call; the token just minted for it; what is left where
  // nothing can be minted; or an error, while a failure is recent.
  ghost predicate Deserved(s: State, after: State, call: Call, result: Result, canMint: bool)
    requires Bounded(s) && call.maxAge <= INT64_MAX
  {
    match result
    case Token(token) =>
      || Reuses(s, call, token)
      || (canMint && GetsMinted(s, after, token))
      || (!canMint && NothingToReuse(s, call) && token == Leftover(s.cached, call))
    case Error => canMint && NothingToReuse(s, call) && FailedRecently(after)
  }

  lemma HandedOut(now: int, seed: Option<string>, canMint: bool, steps: seq<Step>, step: Step)
    requires now <= INT64_MAX && Enabled(Run(now, seed, canMint, steps), step) && !step.Tick?
    ensures var s := Run(now, seed, canMint, steps);
            var after, call := Apply(s, step, canMint), CallOf(s, step);
            && Bounded(s) && call.maxAge <= INT64_MAX
            && step.tid in after.threads
            && (after.threads[step.tid].Done? ==> Deserved(s, after, call, after.threads[step.tid].result, canMint))
            && (!after.threads[step.tid].Done? ==> after.threads[step.tid].call == call)
            // Nobody else's call is touched.
            && (forall tid <- s.threads :: tid != step.tid ==>
                  tid in after.threads && after.threads[tid] == s.threads[tid])
            // And it does come back: whenever it looks at a cache that has
            // something for it, or could not mint, or has minted.
            && ((step.BeginToken? || step.Decide?) && (!NothingToReuse(s, call) || !canMint) ==>
                  after.threads[step.tid].Done?)
            && (step.Store? || step.MintFails? ==> after.threads[step.tid].Done?)
            // What is cached, and when it counts as minted, comes from a mint.
            && (step.MintReturns? ==> after.threads[step.tid] ==
                                      Storing(call, CachedTokenState(step.token, step.expiresAt, s.now)))
            && after.cached == (if step.Store? then Some(s.threads[step.tid].minted) else s.cached)
  {
    var s := Run(now, seed, canMint, steps);
    OnlyMintersGoOn(now, seed, canMint, steps);
    if step.tid in s.threads {
      assert CallCapped(s.threads[step.tid]) && ThreadOk(s, s.threads[step.tid]);
      assert CanMint(s.threads[step.tid], canMint);
    }
    StepDeserves(s, step, canMint);
    OthersStay(s, step, canMint);
    hide Apply, Run, Deserved, NothingToReuse, CanMint, ThreadOk;
  }

  lemma OthersStay(s: State, step: Step, canMint: bool)
    requires Bounded(s) && Capped(s) && Enabled(s, step) && !step.Tick?
    ensures var after := Apply(s, step, canMint);
            forall tid <- s.threads :: tid != step.tid ==> tid in after.threads && after.threads[tid] == s.threads[tid]
  {
  }

  lemma StepDeserves(s: State, step: Step, canMint: bool)
    requires Bounded(s) && Capped(s) && BackedOff(s) && Enabled(s, step) && !step.Tick?
    requires step.tid in s.threads ==>
      && CallCapped(s.threads[step.tid]) && ThreadOk(s, s.threads[step.tid]) && CanMint(s.threads[step.tid], canMint)
    ensures var after, call := Apply(s, step, canMint), CallOf(s, step);
            && call.maxAge <= INT64_MAX && step.tid in after.threads
            && (after.threads[step.tid].Done? ==> Deserved(s, after, call, after.threads[step.tid].result, canMint))
            && (!after.threads[step.tid].Done? ==> after.threads[step.tid].call == call)
            && ((step.BeginToken? || step.Decide?) && (!NothingToReuse(s, call) || !canMint) ==>
                  after.threads[step.tid].Done?)
            && (step.Store? || step.MintFails? ==> after.threads[step.tid].Done?)
            && (step.MintReturns? ==> after.threads[step.tid] ==
                                      Storing(call, CachedTokenState(step.token, step.expiresAt, s.now)))
            && after.cached == (if step.Store? then Some(s.threads[step.tid].minted) else s.cached)
  {
    var after := Apply(s, step, canMint);
    match step
    case Attempt(tid) =>
      if after.threads[tid].Done? {
        assert s.now < (s.failedUntil.value - BACKOFF_SECONDS) + BACKOFF_SECONDS;
      }
    case MintFails(_) => assert s.now in after.past.failures;
    case _ =>
  }

  // ----- The critical sections -----

  class TokenStore {
    const canMint: bool
    var now: int
    var cached: Option<CachedTokenState>
    var failedUntil: Option<int>
    var holder: Option<Tid>
    ghost var threads: map<Tid, Pc>
    ghost var past: Past

    ghost function Value(): State
      reads this
    {
      State(now, cached, failedUntil, holder, threads, past)
    }

    constructor (canMint: bool, now: int, seed: Option<string>)
      requires now <= INT64_MAX
      ensures this.canMint == canMint && Value() == Init(now, seed) && Inv(Value())
    {
      this.canMint, this.now := canMint, now;
      cached := if seed.Some? then Some(CachedTokenState(seed.value, UNKNOWN_EXPIRY, now)) else None;
      failedUntil, holder, threads := None, None, map[];
      past := Past(seed.Some?, if seed.Some? then {seed.value} else {}, 0, {}, {}, {});
    }

    // Token(): a fresh token at once, or whatever there is if none can be
    // minted, or on to the mint lock.
    method TryFresh(ghost tid: Tid, maxAge: int) returns (token: Option<string>)
      requires Inv(Value()) && Enabled(Value(), BeginToken(tid, maxAge))
      modifies this
      ensures Value() == Apply(old(Value()), BeginToken(tid, maxAge), canMint)
      ensures threads[tid] == if token.Some? then Done(Token(token.value)) else Waiting(Call(maxAge, None))
    {
      if cached.Some? && TokenIsFresh(cached.value, now, maxAge) {
        token := Some(cached.value.accessToken);
      } else if !canMint {
        token := Some(if cached.Some? then cached.value.accessToken else "");
      } else {
        token := None;
      }
      threads := threads[tid := if token.Some? then Done(Token(token.value)) else Waiting(Call(maxAge, None))];
    }

    // Refresh(): straight to the mint lock.
    method Reject(ghost tid: Tid, maxAge: int, rejected: string)
      requires Inv(Value()) && Enabled(Value(), BeginRefresh(tid, maxAge, rejected))
      modifies `threads, `past
      ensures Value() == Apply(old(Value()), BeginRefresh(tid, maxAge, rejected), canMint)
    {
      threads := threads[tid := Waiting(Call(maxAge, Some(rejected)))];
      past := past.(rejected := past.rejected + {rejected});
    }

    // Tries the mint lock. It is had at once or not yet, and never by two.
    method LockMint(tid: Tid) returns (got: bool)
      requires Inv(Value()) && tid in threads && threads[tid].Waiting?
      modifies `holder, `threads
      ensures got <==> old(holder).None?
      ensures Value() == if got then Apply(old(Value()), Lock(tid), canMint) else old(Value())
      ensures got ==> forall other <- threads :: threads[other].HoldsLock() ==> other == tid
    {
      got := holder.None?;
      if got {
        StepKeepsInv(Value(), Lock(tid), canMint);
        holder, threads := Some(tid), threads[tid := Locked(threads[tid].call)];
      }
    }

    // With the mint lock: has another thread minted meanwhile?
    method LookAgain(ghost tid: Tid, maxAge: int) returns (token: Option<string>)
      requires Inv(Value()) && Enabled(Value(), Decide(tid)) && threads[tid].call == Call(maxAge, None)
      modifies this
      ensures Value() == Apply(old(Value()), Decide(tid), canMint)
      ensures threads[tid] == if token.Some? then Done(Token(token.value)) else Cleared(Call(maxAge, None))
    {
      assert CallCapped(threads[tid]);
      token := None;
      if cached.Some? && TokenIsFresh(cached.value, now, maxAge) {
        token, holder := Some(cached.value.accessToken), None;
      }
      threads := threads[tid := if token.Some? then Done(Token(token.value)) else Cleared(Call(maxAge, None))];
    }

    method LookAgainAfterRejection(ghost tid: Tid, maxAge: int, rejected: string) returns (token: Option<string>)
      requires Inv(Value()) && Enabled(Value(), Decide(tid)) && threads[tid].call == Call(maxAge, Some(rejected))
      modifies this
      ensures Value() == Apply(old(Value()), Decide(tid), canMint)
      ensures threads[tid] == if token.Some? then Done(Token(token.value)) else Cleared(Call(maxAge, Some(rejected)))
    {
      assert CallCapped(threads[tid]);
      token := None;
      match DecideAfterRejection(cached, rejected, now, maxAge, canMint) {
        case REUSE_CACHED => token, holder := Some(cached.value.accessToken), None;
        case GIVE_UP => token, holder := Some(""), None;
        case MINT =>
      }
      threads := threads[tid := if token.Some? then Done(Token(token.value))
                                else Cleared(Call(maxAge, Some(rejected)))];
    }

    // MintAndStore(): a failure not older than its backoff is given out again.
    method MayMint(ghost tid: Tid) returns (may: bool)
      requires Inv(Value()) && Enabled(Value(), Attempt(tid))
      modifies this
      ensures Value() == Apply(old(Value()), Attempt(tid), canMint)
      ensures threads[tid] == if may then Minting(old(threads)[tid].call) else Done(Error)
    {
      may := true;
      if failedUntil.Some? {
        if failedUntil.value > now {
          holder, threads := None, threads[tid := Done(Error)];
          return false;
        }
        failedUntil := None;
      }
      threads := threads[tid := Minting(threads[tid].call)];
    }

    method RecordFailure(ghost tid: Tid)
      requires Inv(Value()) && Enabled(Value(), MintFails(tid))
      modifies this
      ensures Value() == Apply(old(Value()), MintFails(tid), canMint)
    {
      failedUntil := Some(now + BACKOFF_SECONDS);
      past := past.(failures := past.failures + {now});
      holder, threads := None, threads[tid := Done(Error)];
    }

    method MintReturned(ghost tid: Tid, token: string, expiresAt: int) returns (minted: CachedTokenState)
      requires Inv(Value()) && Enabled(Value(), MintReturns(tid, token, expiresAt))
      modifies `threads
      ensures Value() == Apply(old(Value()), MintReturns(tid, token, expiresAt), canMint)
      ensures minted == CachedTokenState(token, expiresAt, now)
      ensures threads[tid].Storing? && threads[tid].minted == minted
    {
      minted := CachedTokenState(token, expiresAt, now);
      threads := threads[tid := Storing(threads[tid].call, minted)];
    }

    // A successful mint overwrites the entry; nothing else ever does.
    method StoreMinted(ghost tid: Tid, minted: CachedTokenState)
      requires Inv(Value()) && Enabled(Value(), Store(tid)) && threads[tid].minted == minted
      modifies this
      ensures Value() == Apply(old(Value()), Store(tid), canMint)
    {
      assert CallCapped(threads[tid]);
      past := past.(seen := past.seen + {minted.accessToken}, stored := past.stored + 1,
                    stale := past.stale + ReplacedStale(Value(), threads[tid].call.maxAge));
      cached := Some(minted);
      holder, threads := None, threads[tid := Done(Token(minted.accessToken))];
    }
  }
}
