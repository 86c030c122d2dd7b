// The streaming-write state machine of a resumable upload: the one-chunk
// buffer, the parser of the session's Range header, and the per-chunk
// retry/resume decision.
module UploadPlan {
  import opened Options

  newtype Byte = x: int | 0 <= x < 256

  // 256 KiB: the granularity Drive requires of every non-final chunk.
  const CHUNK_MULTIPLE: nat := 262144
  const CHUNK_MAX: nat := 4096 * CHUNK_MULTIPLE
  const MAX_CHUNK_ATTEMPTS: nat := 5
  const UINT64_MAX: nat := 0xFFFF_FFFF_FFFF_FFFF

  // The largest legal chunk size not above the request, or the smallest one.
  function NormalizeChunkSize(requested: nat): (size: nat)
    ensures 0 < size <= CHUNK_MAX && size % CHUNK_MULTIPLE == 0
    ensures forall legal: nat :: legal % CHUNK_MULTIPLE == 0 && size < legal <= CHUNK_MAX ==> requested < legal
    ensures CHUNK_MULTIPLE <= requested ==> size <= requested
  {
    if requested > CHUNK_MAX then CHUNK_MAX
    else
      var rounded := (requested / CHUNK_MULTIPLE) * CHUNK_MULTIPLE;
      if rounded == 0 then CHUNK_MULTIPLE else rounded
  }

  // ----- The Range header of a 308 -----

  predicate IsDigit(c: char) { '0' <= c <= '9' }

  predicate AllDigits(s: string) { forall i :: 0 <= i < |s| ==> IsDigit(s[i]) }

  // A decimal numeral the parser accepts: 1 to 19 digits.
  predicate IsNumeral(s: string) { 1 <= |s| <= 19 && AllDigits(s) }

  ghost predicate NumeralAt(s: string, pos: nat, stop: nat) {
    pos <= stop <= |s| && IsNumeral(s[pos..stop])
  }

  function NumeralValue(s: string): nat
    requires AllDigits(s)
  {
    if s == [] then 0 else 10 * NumeralValue(s[..|s| - 1]) + (s[|s| - 1] - '0') as nat
  }

  function Pow10(n: nat): (p: nat)
    ensures p > 0
  {
    if n == 0 then 1 else 10 * Pow10(n - 1)
  }

  lemma {:induction false} NumeralBound(s: string)
    requires AllDigits(s)
    ensures NumeralValue(s) < Pow10(|s|)
  {
    if s != [] {
      NumeralBound(s[..|s| - 1]);
    }
  }

  lemma {:induction false} Pow10Monotone(m: nat, n: nat)
    requires m <= n
    ensures Pow10(m) <= Pow10(n)
  {
    if m < n {
      Pow10Monotone(m, n - 1);
    }
  }

  lemma Pow10Of19()
    ensures Pow10(19) == 10000000000000000000
  {
    assert Pow10(10) == 10000000000;
    assert Pow10(19) == 1000000000 * Pow10(10);
  }

  // Why 19 digits: such a numeral always fits in 64 bits with room for + 1.
  lemma NumeralFitsInUint64(s: string)
    requires IsNumeral(s)
    ensures NumeralValue(s) < UINT64_MAX
  {
    NumeralBound(s);
    Pow10Monotone(|s|, 19);
    Pow10Of19();
  }

  const RANGE_PREFIX: string := "bytes="

  ghost predicate IsRange(header: string, first: string, last: string, next: nat) {
    && IsNumeral(first) && IsNumeral(last)
    && header == RANGE_PREFIX + first + "-" + last
    && NumeralValue(first) == 0 && next == NumeralValue(last) + 1
  }

  // What a Range header says the session holds: an absent one says nothing
  // yet, "bytes=0-N" says the first N + 1 bytes; no other text says anything.
  ghost predicate RangeSays(header: string, next: nat) {
    || (header == "" && next == 0)
    || exists first, last :: IsRange(header, first, last, next)
  }

  // Reads the maximal digit run at pos, unless it is empty or too long.
  method ParseDigits(s: string, pos: nat) returns (ok: bool, end: nat, value: nat)
    requires pos <= |s|
    ensures ok ==> pos <= end <= |s| && IsNumeral(s[pos..end]) && value == NumeralValue(s[pos..end])
    ensures ok ==> end == |s| || !IsDigit(s[end])
    ensures !ok ==> forall stop: nat :: NumeralAt(s, pos, stop) ==> stop < |s| && IsDigit(s[stop])
  {
    end, value := pos, 0;
    while end < |s| && IsDigit(s[end])
      invariant pos <= end <= |s| && end - pos <= 19
      invariant AllDigits(s[pos..end]) && value == NumeralValue(s[pos..end])
    {
      if end - pos >= 19 {
        forall stop: nat | NumeralAt(s, pos, stop)
          ensures stop < |s| && IsDigit(s[stop])
        {
          if stop < end {
            assert s[stop] == s[pos..end][stop - pos];
          }
        }
        return false, end, value;
      }
      assert s[pos..end + 1] == s[pos..end] + [s[end]];
      value := value * 10 + (s[end] - '0') as nat;
      end := end + 1;
    }
    if end == pos {
      assert forall stop: nat :: pos < stop <= |s| ==> s[pos..stop][0] == s[pos];
      return false, end, value;
    }
    ok := true;
  }

  // Two digit runs of one text that both end where the digits end are one run.
  lemma SameRun(s: string, pos: nat, end: nat, stop: nat)
    requires pos <= end <= |s| && pos <= stop <= |s|
    requires AllDigits(s[pos..end]) && AllDigits(s[pos..stop])
    requires end == |s| || !IsDigit(s[end])
    requires stop == |s| || !IsDigit(s[stop])
    ensures end == stop
  {
    assert forall i :: pos <= i < end ==> s[pos..end][i - pos] == s[i];
    assert forall i :: pos <= i < stop ==> s[pos..stop][i - pos] == s[i];
  }

  // Where the first numeral of a readable header ends, given where the digits
  // after the prefix end.
  lemma RangeShape(header: string, first: string, last: string, next: nat, stop: nat, from: nat)
    requires IsRange(header, first, last, next)
    requires |RANGE_PREFIX| <= stop <= |header| && AllDigits(header[|RANGE_PREFIX|..stop])
    requires stop == |header| || !IsDigit(header[stop])
    requires from == stop + 1
    ensures RANGE_PREFIX <= header && stop < |header| && header[stop] == '-'
    ensures header[|RANGE_PREFIX|..stop] == first && header[from..] == last
    ensures NumeralAt(header, from, |header|) && forall i :: from <= i < |header| ==> IsDigit(header[i])
  {
    var dash := |RANGE_PREFIX| + |first|;
    assert header == (RANGE_PREFIX + first) + ("-" + last);
    assert header[|RANGE_PREFIX|..dash] == first && header[dash] == '-' && header[dash + 1..] == last;
    SameRun(header, |RANGE_PREFIX|, stop, dash);
    assert header[from..|header|] == last;
    assert forall i :: from <= i < |header| ==> header[i] == last[i - from];
  }

  // The position of the dash in a readable header.
  lemma DashOf(header: string, first: string, last: string, next: nat) returns (dash: nat)
    requires IsRange(header, first, last, next)
    ensures |RANGE_PREFIX| < dash < |header| && AllDigits(header[|RANGE_PREFIX|..dash])
    ensures header[dash] == '-' && NumeralAt(header, |RANGE_PREFIX|, dash)
  {
    dash := |RANGE_PREFIX| + |first|;
    assert header == (RANGE_PREFIX + first) + ("-" + last);
    assert header[|RANGE_PREFIX|..dash] == first;
  }

  // A header says at most one thing.
  lemma RangeSaysOneThing(header: string, m: nat, n: nat)
    requires RangeSays(header, m) && RangeSays(header, n)
    ensures m == n
  {
    if header != "" {
      var f1, l1 :| IsRange(header, f1, l1, m);
      var f2, l2 :| IsRange(header, f2, l2, n);
      var dash := DashOf(header, f1, l1, m);
      RangeShape(header, f1, l1, m, dash, dash + 1);
      RangeShape(header, f2, l2, n, dash, dash + 1);
    }
  }

  // A header whose first digit run does not end at a dash, or is no numeral.
  lemma UnreadableFirst(header: string, ok: bool, dash: nat)
    requires header != "" && |RANGE_PREFIX| <= |header|
    requires ok ==>
      && |RANGE_PREFIX| <= dash <= |header| && IsNumeral(header[|RANGE_PREFIX|..dash])
      && (dash == |header| || !IsDigit(header[dash]))
      && (dash == |header| || header[dash] != '-')
    requires !ok ==> forall stop: nat :: NumeralAt(header, |RANGE_PREFIX|, stop) ==>
      stop < |header| && IsDigit(header[stop])
    ensures forall n :: !RangeSays(header, n)
  {
    forall n, first, last | IsRange(header, first, last, n)
      ensures false
    {
      var d := DashOf(header, first, last, n);
      if ok { RangeShape(header, first, last, n, dash, dash + 1); }
    }
  }

  // A header whose second digit run is no numeral, stops short, or follows a
  // first numeral other than zero.
  lemma UnreadableLast(header: string, dash: nat, from: nat, ok: bool, end: nat)
    requires |RANGE_PREFIX| <= dash < |header| && IsNumeral(header[|RANGE_PREFIX|..dash]) && header[dash] == '-'
    requires from == dash + 1
    requires ok ==> from <= end <= |header|
    requires ok ==>
      || (end < |header| && !IsDigit(header[end]))
      || NumeralValue(header[|RANGE_PREFIX|..dash]) != 0
    requires !ok ==> forall stop: nat :: NumeralAt(header, from, stop) ==>
      stop < |header| && IsDigit(header[stop])
    ensures forall n :: !RangeSays(header, n)
  {
    forall n, first, last | IsRange(header, first, last, n)
      ensures false
    {
      RangeShape(header, first, last, n, dash, from);
    }
  }

  method ParseDriveRangeNext(header: string) returns (ok: bool, next: nat)
    ensures ok ==> RangeSays(header, next)
    ensures !ok ==> forall n :: !RangeSays(header, n)
  {
    if header == "" {
      return true, 0;
    }
    next := 0;
    if !(RANGE_PREFIX <= header) {
      return false, next;
    }
    var dash, first, end, last;
    ok, dash, first := ParseDigits(header, |RANGE_PREFIX|);
    if !ok || dash >= |header| || header[dash] != '-' {
      UnreadableFirst(header, ok, dash);
      return false, next;
    }
    ok, end, last := ParseDigits(header, dash + 1);
    if ok { NumeralFitsInUint64(header[dash + 1..end]); }
    if !ok || end != |header| || last < first || first != 0 || last == UINT64_MAX {
      UnreadableLast(header, dash, dash + 1, ok, end);
      return false, next;
    }
    assert header[dash + 1..end] == header[dash + 1..];
    assert header == RANGE_PREFIX + header[|RANGE_PREFIX|..dash] + "-" + header[dash + 1..];
    assert IsRange(header, header[|RANGE_PREFIX|..dash], header[dash + 1..], last + 1);
    return true, last + 1;
  }

  function Numeral(n: nat): (s: string)
    ensures AllDigits(s) && s != [] && NumeralValue(s) == n
  {
    var d := ['0' + (n % 10) as char];
    if n < 10 then d else
      var s := Numeral(n / 10) + d;
      assert s[..|s| - 1] == Numeral(n / 10);
      s
  }

  lemma {:induction false} NumeralLength(n: nat, digits: nat)
    requires digits > 0 && n < Pow10(digits)
    ensures |Numeral(n)| <= digits
  {
    if n >= 10 {
      NumeralLength(n / 10, digits - 1);
    }
  }

  // The header a session that holds `held` bytes sends.
  function RangeHeader(held: nat): string {
    if held == 0 then "" else RANGE_PREFIX + "0" + "-" + Numeral(held - 1)
  }

  lemma RangeHeaderIsRange(held: nat)
    requires 0 < held <= Pow10(19)
    ensures IsRange(RangeHeader(held), "0", Numeral(held - 1), held)
  {
    NumeralLength(held - 1, 19);
    ZeroIsNumeral();
    hide Pow10, Numeral, NumeralValue;
  }

  lemma ZeroIsNumeral()
    ensures IsNumeral("0") && NumeralValue("0") == 0
  {
    assert "0"[..0] == "";
  }

  // Round trip: what the session writes is what the client reads.
  lemma RangeHeaderRoundTrip(held: nat, n: nat)
    requires held <= Pow10(19)
    ensures RangeSays(RangeHeader(held), n) <==> n == held
  {
    if held > 0 {
      RangeHeaderIsRange(held);
    }
    if RangeSays(RangeHeader(held), n) {
      RangeSaysOneThing(RangeHeader(held), n, held);
    }
  }

  // ----- The one-chunk buffer -----

  datatype CloseAction = SingleRequest | FinalChunk

  class ChunkedUploadBuffer {
    const chunk: nat
    var pending: seq<Byte>
    var offset: nat
    var peak: nat
    var sentAny: bool

    // Nothing leaves the buffer except in whole chunks, so the bytes already
    // sent end on a 256 KiB boundary, and at most one chunk is ever held.
    ghost predicate Valid()
      reads this
    {
      && 0 < chunk <= CHUNK_MAX && chunk % CHUNK_MULTIPLE == 0
      && |pending| <= peak <= chunk
      && offset % CHUNK_MULTIPLE == 0
      && (sentAny <==> offset > 0)
    }

    constructor (chunkBytes: nat)
      ensures Valid() && chunk == NormalizeChunkSize(chunkBytes)
      ensures pending == [] && offset == 0 && peak == 0
    {
      chunk := NormalizeChunkSize(chunkBytes);
      pending, offset, peak, sentAny := [], 0, 0, false;
    }

    predicate Full()
      reads this
    {
      |pending| >= chunk
    }

    function Total(): nat
      reads this
    {
      offset + |pending|
    }

    function OnClose(): CloseAction
      reads this
    {
      if sentAny then FinalChunk else SingleRequest
    }

    method Fill(data: seq<Byte>) returns (take: nat)
      requires Valid()
      modifies this
      ensures Valid() && offset == old(offset)
      ensures take <= |data| && pending == old(pending) + data[..take]
      ensures take == 0 ==> old(Full()) || data == []
      ensures take < |data| ==> Full()
      ensures peak == if old(peak) < |pending| then |pending| else old(peak)
    {
      var room := chunk - (if chunk < |pending| then chunk else |pending|);
      take := if room < |data| then room else |data|;
      if take > 0 {
        pending := pending + data[..take];
        peak := if peak < |pending| then |pending| else peak;
      }
    }

    method MarkChunkSent()
      requires Valid() && Full()
      modifies this
      ensures Valid() && offset == old(Total()) && pending == [] && sentAny && peak == old(peak)
    {
      offset := offset + |pending|;
      pending := [];
      sentAny := true;
    }

    // How many bytes of the pending chunk the session already holds, or None
    // when that point is no longer (or not yet) in memory.
    function ResumeSkip(nextExpected: nat): (skip: Option<nat>)
      reads this
      ensures skip.Some? <==> offset <= nextExpected <= Total()
      ensures skip.Some? ==> offset + skip.value == nextExpected && skip.value <= |pending|
    {
      if nextExpected < offset || nextExpected > Total() then None else Some(nextExpected - offset)
    }
  }

  // ----- The per-chunk decision -----

  // One reply from the session, as it comes off the wire.
  datatype UploadReply = UploadReply(transportOk: bool, status: int, range: string, retryable: bool)

  // What a reply means.
  datatype Answer =
    | Completed                    // 200 or 201
    | Holds(next: Option<nat>)     // 308; None when its Range is unreadable
    | Refused(retryable: bool, serverError: bool)
    | NoAnswer

  ghost predicate Means(reply: UploadReply, answer: Answer) {
    if !reply.transportOk then answer == NoAnswer
    else if reply.status == 200 || reply.status == 201 then answer == Completed
    else if reply.status == 308 then
      && answer.Holds?
      && (answer.next.Some? ==> RangeSays(reply.range, answer.next.value))
      && (answer.next.None? ==> forall n :: !RangeSays(reply.range, n))
    else answer == Refused(reply.retryable, reply.status >= 500)
  }

  // Progress of one chunk: bytes of it the session holds, consecutive 308s
  // that moved nothing, errors so far, and whether a final chunk may have
  // reached Drive with its answer lost.
  datatype Progress = Progress(skip: nat, stalls: nat, failures: nat, finalMaybeSent: bool)

  const FRESH := Progress(0, 0, 0, false)

  datatype StepKind = Done | Accepted | Send | AskStatus | Fail

  datatype UploadStep = UploadStep(kind: StepKind, backoff: bool, ambiguous: bool)

  // Giving up: ambiguous exactly when a final chunk may have been applied.
  function GiveUp(final: bool, finalMaybeSent: bool, backoff: bool): UploadStep {
    UploadStep(Fail, backoff, final && finalMaybeSent)
  }

  function Failing(final: bool, p: Progress): (UploadStep, Progress) {
    (GiveUp(final, p.finalMaybeSent, false), p)
  }

  // The decision as a function of the chunk [offset, offset + len), the
  // progress so far and the answer.
  function Decide(offset: nat, len: nat, final: bool, p: Progress, answer: Answer): (UploadStep, Progress) {
    match answer
    case Completed =>
      if final then (UploadStep(Done, false, false), p) else Failing(final, p)
    case Holds(None) => Failing(final, p)
    case Holds(Some(next)) =>
      if next < offset || next > offset + len then Failing(final, p)
      else
        var skip := next - offset;
        var whole := skip == len && !final;
        var moved := skip > p.skip || whole;
        var stalls := if moved then 0 else p.stalls + 1;
        if stalls > MAX_CHUNK_ATTEMPTS then
          Failing(final, p.(stalls := stalls))
        else
          var q := p.(skip := skip, stalls := stalls);
          if whole then (UploadStep(Accepted, stalls > 0, false), q)
          else if !final && (offset + skip) % CHUNK_MULTIPLE != 0 then
            (GiveUp(final, q.finalMaybeSent, stalls > 0), q)
          else (UploadStep(Send, stalls > 0, false), q)
    case Refused(retryable, serverError) => AfterError(final, p, retryable, serverError)
    case NoAnswer => AfterError(final, p, true, true)
  }

  function AfterError(final: bool, p: Progress, retryable: bool, maybeApplied: bool): (UploadStep, Progress) {
    var q := if final && maybeApplied then p.(finalMaybeSent := true) else p;
    var r := if retryable then q.(failures := q.failures + 1) else q;
    if retryable && r.failures <= MAX_CHUNK_ATTEMPTS then (UploadStep(AskStatus, true, false), r)
    else Failing(final, r)
  }

  class ChunkUploadState {
    var skip: nat
    var stalls: nat
    var failures: nat
    var finalMaybeSent: bool

    constructor ()
      ensures Value() == FRESH
    {
      skip, stalls, failures, finalMaybeSent := 0, 0, 0, false;
    }

    function Value(): Progress
      reads this
    {
      Progress(skip, stalls, failures, finalMaybeSent)
    }
  }

  method NextUploadStep(buf: ChunkedUploadBuffer, final: bool, state: ChunkUploadState, reply: UploadReply)
    returns (step: UploadStep, ghost answer: Answer)
    requires buf.Valid()
    modifies state
    ensures Means(reply, answer)
    ensures (step, state.Value()) == Decide(buf.offset, |buf.pending|, final, old(state.Value()), answer)
  {
    hide RangeSays;
    var pending := |buf.pending|;
    if reply.transportOk && (reply.status == 200 || reply.status == 201) {
      answer := Completed;
      if !final {
        step := GiveUp(final, state.finalMaybeSent, false);
        return;
      }
      step := UploadStep(Done, false, false);
      return;
    }
    if reply.transportOk && reply.status == 308 {
      var ok, next := ParseDriveRangeNext(reply.range);
      answer := Holds(if ok then Some(next) else None);
      if !ok {
        step := GiveUp(final, state.finalMaybeSent, false);
        return;
      }
      var resume := buf.ResumeSkip(next);
      if resume.None? {
        step := GiveUp(final, state.finalMaybeSent, false);
        return;
      }
      var skip := resume.value;
      if skip > state.skip || (skip == pending && !final) {
        state.stalls := 0;
      } else {
        state.stalls := state.stalls + 1;
        if state.stalls > MAX_CHUNK_ATTEMPTS {
          step := GiveUp(final, state.finalMaybeSent, false);
          return;
        }
      }
      var backoff := state.stalls > 0;
      state.skip := skip;
      if skip == pending && !final {
        step := UploadStep(Accepted, backoff, false);
        return;
      }
      if !final && skip < pending && (buf.offset + skip) % CHUNK_MULTIPLE != 0 {
        step := GiveUp(final, state.finalMaybeSent, backoff);
        return;
      }
      step := UploadStep(Send, backoff, false);
      return;
    }
    answer := if reply.transportOk then Refused(reply.retryable, reply.status >= 500) else NoAnswer;
    var retryable := !reply.transportOk || reply.retryable;
    if final && (!reply.transportOk || reply.status >= 500) {
      state.finalMaybeSent := true;
    }
    if retryable {
      state.failures := state.failures + 1;
      if state.failures <= MAX_CHUNK_ATTEMPTS {
        step := UploadStep(AskStatus, true, false);
        return;
      }
    }
    step := GiveUp(final, state.finalMaybeSent, false);
  }

  // ----- What the decision guarantees -----

  ghost predicate InBounds(len: nat, p: Progress) {
    p.skip <= len && p.stalls <= MAX_CHUNK_ATTEMPTS && p.failures <= MAX_CHUNK_ATTEMPTS
  }

  predicate GoesOn(step: UploadStep) { step.kind == Send || step.kind == AskStatus }

  // Milestones passed by skip acknowledged bytes: a non-final chunk is only
  // ever continued at a 256 KiB boundary, a final one at any byte.
  function Milestones(final: bool, skip: nat): nat {
    if final then skip else skip / CHUNK_MULTIPLE
  }

  // An upper bound on the requests it took to reach p.
  function Spent(final: bool, p: Progress): nat {
    6 * Milestones(final, p.skip) + p.stalls + p.failures
  }

  // Bytes not yet acknowledged, then failures left, then stalls left: a step
  // that goes on makes this triple smaller, provided the session's reported
  // prefix does not shrink.
  ghost predicate Closer(q: Progress, p: Progress) {
    || q.skip > p.skip
    || (q.skip == p.skip && q.failures > p.failures)
    || (q.skip == p.skip && q.failures == p.failures && q.stalls > p.stalls)
  }

  predicate NeverShrinks(offset: nat, p: Progress, answer: Answer) {
    answer.Holds? && answer.next.Some? ==> answer.next.value >= offset + p.skip
  }

  lemma DecideMakesProgress(offset: nat, len: nat, final: bool, p: Progress, answer: Answer)
    requires offset % CHUNK_MULTIPLE == 0
    requires InBounds(len, p) && (!final ==> p.skip % CHUNK_MULTIPLE == 0)
    requires NeverShrinks(offset, p, answer)
    ensures var (step, q) := Decide(offset, len, final, p, answer);
            GoesOn(step) ==>
              && InBounds(len, q) && (!final ==> q.skip % CHUNK_MULTIPLE == 0)
              && Closer(q, p)
              && Spent(final, q) >= Spent(final, p) + 1
  {
  }

  // ----- Whole runs of one chunk -----

  // The progress after these answers, and whether every step so far went on.
  function Progressed(offset: nat, len: nat, final: bool, answers: seq<Answer>): Progress {
    if answers == [] then FRESH
    else
      var n := |answers| - 1;
      Decide(offset, len, final, Progressed(offset, len, final, answers[..n]), answers[n]).1
  }

  function StepAfter(offset: nat, len: nat, final: bool, answers: seq<Answer>): UploadStep {
    if answers == [] then UploadStep(Send, false, false)
    else
      var n := |answers| - 1;
      Decide(offset, len, final, Progressed(offset, len, final, answers[..n]), answers[n]).0
  }

  predicate AllGoOn(offset: nat, len: nat, final: bool, answers: seq<Answer>) {
    if answers == [] then true
    else
      && GoesOn(StepAfter(offset, len, final, answers))
      && AllGoOn(offset, len, final, answers[..|answers| - 1])
  }

  // ----- When a chunk ends, and how -----

  // A report of a byte in the chunk.
  predicate InChunk(offset: nat, len: nat, a: Answer) {
    a.Holds? && a.next.Some? && offset <= a.next.value <= offset + len
  }

  predicate OffBoundary(offset: nat, len: nat, a: Answer) {
    InChunk(offset, len, a) && a.next.value < offset + len && a.next.value % CHUNK_MULTIPLE != 0
  }

  // Lost, or refused in a way that may pass.
  predicate MayPass(a: Answer) { a == NoAnswer || (a.Refused? && a.retryable) }

  // The byte last reported; at first the one the chunk starts at.
  function Reported(offset: nat, len: nat, answers: seq<Answer>): nat {
    if answers == [] then offset
    else
      var n := |answers| - 1;
      if InChunk(offset, len, answers[n]) then answers[n].next.value else Reported(offset, len, answers[..n])
  }

  // How many reports in a row, up to the last one, moved nothing: they
  // reported no more than the one before, nor the end of a chunk that is not
  // the last.
  function Idle(offset: nat, len: nat, final: bool, answers: seq<Answer>): nat {
    if answers == [] then 0
    else
      var n := |answers| - 1;
      if !InChunk(offset, len, answers[n]) then Idle(offset, len, final, answers[..n])
      else if answers[n].next.value > Reported(offset, len, answers[..n]) then 0
      else if !final && answers[n].next.value == offset + len then 0
      else Idle(offset, len, final, answers[..n]) + 1
  }

  function Errors(answers: seq<Answer>): nat {
    if answers == [] then 0
    else
      var n := |answers| - 1;
      Errors(answers[..n]) + if MayPass(answers[n]) then 1 else 0
  }

  // The file is complete, or a chunk that is not the last one is held.
  predicate Succeeds(offset: nat, len: nat, final: bool, answers: seq<Answer>)
    requires answers != []
  {
    answers[|answers| - 1] == if final then Completed else Holds(Some(offset + len))
  }

  // An unreadable report or one of a byte outside the chunk; one off the
  // boundaries of a chunk that is not the last; the sixth report in a row that
  // moved nothing; a refusal for good; the sixth answer that was lost or may
  // pass; a complete file before the last chunk.
  predicate Fails(offset: nat, len: nat, final: bool, answers: seq<Answer>)
    requires answers != []
  {
    var last := answers[|answers| - 1];
    || (last.Holds? && !InChunk(offset, len, last))
    || (!final && OffBoundary(offset, len, last))
    || (last.Holds? && Idle(offset, len, final, answers) > MAX_CHUNK_ATTEMPTS)
    || (last.Refused? && !last.retryable)
    || (MayPass(last) && Errors(answers) > MAX_CHUNK_ATTEMPTS)
    || (last.Completed? && !final)
  }

  predicate Ends(offset: nat, len: nat, final: bool, answers: seq<Answer>)
    requires answers != []
  {
    Succeeds(offset, len, final, answers) || Fails(offset, len, final, answers)
  }

  // No answer ended the chunk.
  ghost predicate NoneEnds(offset: nat, len: nat, final: bool, answers: seq<Answer>) {
    forall k :: 0 < k <= |answers| ==> !Ends(offset, len, final, answers[..k])
  }

  lemma NoneEndsBefore(offset: nat, len: nat, final: bool, answers: seq<Answer>)
    requires answers != []
    ensures var front := answers[..|answers| - 1];
            NoneEnds(offset, len, final, answers) <==>
              NoneEnds(offset, len, final, front) && !Ends(offset, len, final, answers)
  {
    var n := |answers| - 1;
    var front := answers[..n];
    assert answers[..n + 1] == answers && forall k :: 0 < k <= n ==> front[..k] == answers[..k];
    if NoneEnds(offset, len, final, front) && !Ends(offset, len, final, answers) {
      forall k | 0 < k <= |answers| ensures !Ends(offset, len, final, answers[..k]) {
        assert k <= n ==> front[..k] == answers[..k];
      }
    }
    if NoneEnds(offset, len, final, answers) {
      assert !Ends(offset, len, final, answers[..n + 1]);
      forall k | 0 < k <= n ensures !Ends(offset, len, final, front[..k]) {
        assert !Ends(offset, len, final, answers[..k]);
      }
    }
  }

  // One more answer after answers that did not end the chunk.
  lemma NextIsTold(offset: nat, len: nat, final: bool, answers: seq<Answer>)
    requires answers != []
    requires var n := |answers| - 1;
             Tells(offset, len, final, answers[..n], Progressed(offset, len, final, answers[..n]))
    ensures StepTells(offset, len, final, answers, StepAfter(offset, len, final, answers))
    ensures !Ends(offset, len, final, answers) ==>
      Tells(offset, len, final, answers, Progressed(offset, len, final, answers))
  {
  }

  // The progress while the chunk goes on, told from the answers.
  ghost predicate Tells(offset: nat, len: nat, final: bool, answers: seq<Answer>, p: Progress) {
    && offset + p.skip == Reported(offset, len, answers)
    && p.stalls == Idle(offset, len, final, answers)
    && p.failures == Errors(answers)
  }

  // The step after the last answer, told from the answers.
  ghost predicate StepTells(offset: nat, len: nat, final: bool, answers: seq<Answer>, step: UploadStep)
    requires answers != []
  {
    var last := answers[|answers| - 1];
    && (step.kind == (if Succeeds(offset, len, final, answers) then (if final then Done else Accepted)
                      else if Fails(offset, len, final, answers) then Fail
                      else if MayPass(last) then AskStatus else Send))
    && (GoesOn(step) ==> (step.backoff <==> MayPass(last) || Idle(offset, len, final, answers) > 0))
  }

  // A chunk goes on until the first answer that ends it, and then ends as that
  // answer says.
  lemma {:induction false} EndsAsTold(offset: nat, len: nat, final: bool, answers: seq<Answer>)
    ensures AllGoOn(offset, len, final, answers) <==> NoneEnds(offset, len, final, answers)
    ensures AllGoOn(offset, len, final, answers) ==>
      Tells(offset, len, final, answers, Progressed(offset, len, final, answers))
    ensures answers != [] && NoneEnds(offset, len, final, answers[..|answers| - 1]) ==>
      StepTells(offset, len, final, answers, StepAfter(offset, len, final, answers))
  {
    if answers != [] {
      EndsAsTold(offset, len, final, answers[..|answers| - 1]);
      NoneEndsBefore(offset, len, final, answers);
      if NoneEnds(offset, len, final, answers[..|answers| - 1]) {
        NextIsTold(offset, len, final, answers);
        hide Tells, Progressed, Ends;
      }
    }
  }

  // While the chunk goes on, it is sent on from the byte last reported.
  lemma SendsOn(offset: nat, len: nat, final: bool, answers: seq<Answer>)
    requires AllGoOn(offset, len, final, answers)
    ensures offset + Progressed(offset, len, final, answers).skip == Reported(offset, len, answers)
    ensures StepAfter(offset, len, final, answers).kind == Send <==>
      answers == [] || InChunk(offset, len, answers[|answers| - 1])
  {
    EndsAsTold(offset, len, final, answers);
    if answers == [] {
      NoAnswerYet(offset, len, final);
    } else {
      NoneEndsBefore(offset, len, final, answers);
      hide Progressed, AllGoOn, StepAfter, NoneEnds, Idle, Errors, Reported;
    }
  }

  // How often the session has reported less than before.
  function Shrinks(offset: nat, len: nat, final: bool, answers: seq<Answer>): nat {
    if answers == [] then 0
    else
      var n := |answers| - 1;
      Shrinks(offset, len, final, answers[..n])
      + if NeverShrinks(offset, Progressed(offset, len, final, answers[..n]), answers[n]) then 0 else 1
  }

  // The largest number of requests one chunk can cost while reports never shrink.
  function RequestBound(final: bool, len: nat): nat {
    6 * Milestones(final, len) + 2 * MAX_CHUNK_ATTEMPTS + 1
  }

  lemma SpentIsBounded(final: bool, len: nat, p: Progress)
    requires InBounds(len, p)
    ensures Spent(final, p) + 1 <= RequestBound(final, len)
  {
  }

  lemma DecideStaysInBounds(offset: nat, len: nat, final: bool, p: Progress, answer: Answer)
    requires offset % CHUNK_MULTIPLE == 0
    requires InBounds(len, p) && (!final ==> p.skip % CHUNK_MULTIPLE == 0)
    ensures var (step, q) := Decide(offset, len, final, p, answer);
            GoesOn(step) ==> InBounds(len, q) && (!final ==> q.skip % CHUNK_MULTIPLE == 0)
  {
  }

  // Each time the report shrinks it can cost the allowance once more, and no
  // more than that: a run whose report shrinks k times takes at most k + 1
  // times the requests of one that never does. (The request after the last of
  // these answers is the one counted by the final 1.)
  lemma {:induction false} RequestsPerShrink(offset: nat, len: nat, final: bool, answers: seq<Answer>)
    requires offset % CHUNK_MULTIPLE == 0 && AllGoOn(offset, len, final, answers)
    ensures var p, k := Progressed(offset, len, final, answers), Shrinks(offset, len, final, answers);
            && InBounds(len, p) && (!final ==> p.skip % CHUNK_MULTIPLE == 0)
            && |answers| <= k * RequestBound(final, len) + Spent(final, p)
            && |answers| + 1 <= (k + 1) * RequestBound(final, len)
  {
    var bound := RequestBound(final, len);
    if answers != [] {
      var n := |answers| - 1;
      var front := answers[..n];
      RequestsPerShrink(offset, len, final, front);
      var p, k := Progressed(offset, len, final, front), Shrinks(offset, len, final, front);
      DecideStaysInBounds(offset, len, final, p, answers[n]);
      if NeverShrinks(offset, p, answers[n]) {
        DecideMakesProgress(offset, len, final, p, answers[n]);
      } else {
        TimesOneMore(k, bound);
      }
    }
    SpentIsBounded(final, len, Progressed(offset, len, final, answers));
    TimesOneMore(Shrinks(offset, len, final, answers), bound);
  }

  lemma TimesOneMore(k: nat, b: nat)
    ensures (k + 1) * b == k * b + b
  {
  }

  // A session that alternately reports one more milestone and none.
  function Wavering(offset: nat, rounds: nat): seq<Answer> {
    if rounds == 0 then []
    else Wavering(offset, rounds - 1) + [Holds(Some(offset + CHUNK_MULTIPLE))] + [Holds(Some(offset))]
  }

  // So the loop need not end: every report that grows clears the stall counter,
  // and a wavering session is obeyed for ever.
  lemma {:induction false} WaveringIsObeyedForEver(offset: nat, len: nat, rounds: nat)
    requires offset % CHUNK_MULTIPLE == 0 && len > CHUNK_MULTIPLE
    ensures |Wavering(offset, rounds)| == 2 * rounds && AllGoOn(offset, len, false, Wavering(offset, rounds))
    ensures Progressed(offset, len, false, Wavering(offset, rounds)) ==
      if rounds == 0 then FRESH else FRESH.(stalls := 1)
  {
    hide Decide, Progressed, AllGoOn;
    NoAnswerYet(offset, len, false);
    if rounds > 0 {
      var before := Wavering(offset, rounds - 1);
      WaveringIsObeyedForEver(offset, len, rounds - 1);
      WaverOnce(offset, len);
      OneAnswerMore(offset, len, false, before, Holds(Some(offset + CHUNK_MULTIPLE)));
      OneAnswerMore(offset, len, false, before + [Holds(Some(offset + CHUNK_MULTIPLE))], Holds(Some(offset)));
    }
  }

  lemma NoAnswerYet(offset: nat, len: nat, final: bool)
    ensures Progressed(offset, len, final, []) == FRESH && AllGoOn(offset, len, final, [])
    ensures StepAfter(offset, len, final, []) == UploadStep(Send, false, false)
  {
  }

  lemma OneAnswerMore(offset: nat, len: nat, final: bool, answers: seq<Answer>, answer: Answer)
    ensures var next := Decide(offset, len, final, Progressed(offset, len, final, answers), answer);
            && Progressed(offset, len, final, answers + [answer]) == next.1
            && StepAfter(offset, len, final, answers + [answer]) == next.0
            && (AllGoOn(offset, len, final, answers + [answer]) <==>
                AllGoOn(offset, len, final, answers) && GoesOn(next.0))
  {
    var longer := answers + [answer];
    assert longer[..|longer| - 1] == answers;
  }

  lemma WaverOnce(offset: nat, len: nat)
    requires offset % CHUNK_MULTIPLE == 0 && len > CHUNK_MULTIPLE
    ensures var ahead, back := Holds(Some(offset + CHUNK_MULTIPLE)), Holds(Some(offset));
            && Decide(offset, len, false, FRESH, ahead) ==
               (UploadStep(Send, false, false), FRESH.(skip := CHUNK_MULTIPLE))
            && Decide(offset, len, false, FRESH.(stalls := 1), ahead)
               == (UploadStep(Send, false, false), FRESH.(skip := CHUNK_MULTIPLE))
            && Decide(offset, len, false, FRESH.(skip := CHUNK_MULTIPLE), back)
               == (UploadStep(Send, true, false), FRESH.(stalls := 1))
  {
  }

  // After this answer a final chunk may have been applied for all one knows.
  predicate Doubtful(answer: Answer) { answer == NoAnswer || (answer.Refused? && answer.serverError) }

  lemma Suspects(offset: nat, len: nat, final: bool, p: Progress, answer: Answer)
    ensures Decide(offset, len, final, p, answer).1.finalMaybeSent <==> p.finalMaybeSent || (final && Doubtful(answer))
    ensures var (step, q) := Decide(offset, len, final, p, answer);
            step.ambiguous <==> step.kind == Fail && final && q.finalMaybeSent
  {
  }

  lemma {:induction false} SuspicionIsExact(offset: nat, len: nat, final: bool, answers: seq<Answer>)
    ensures Progressed(offset, len, final, answers).finalMaybeSent <==> final && exists a <- answers :: Doubtful(a)
  {
    if answers != [] {
      var n := |answers| - 1;
      SuspicionIsExact(offset, len, final, answers[..n]);
      Suspects(offset, len, final, Progressed(offset, len, final, answers[..n]), answers[n]);
      assert forall a :: a in answers <==> a in answers[..n] || a == answers[n];
    }
  }

  // A failure is reported ambiguous exactly when it is that of a final chunk
  // and some answer to it, now or earlier, was lost or was a server error.
  lemma AmbiguityIsExact(offset: nat, len: nat, final: bool, answers: seq<Answer>)
    requires answers != []
    ensures var step := StepAfter(offset, len, final, answers);
            step.ambiguous <==> step.kind == Fail && final && exists a <- answers :: Doubtful(a)
  {
    var n := |answers| - 1;
    SuspicionIsExact(offset, len, final, answers);
    Suspects(offset, len, final, Progressed(offset, len, final, answers[..n]), answers[n]);
  }
}
