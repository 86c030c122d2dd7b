// Reading a byte range: from cached blocks, or from one exact response.
module RangedRead {
  import opened Options
  import opened UploadPlan
  import opened Keys
  import opened BlockCache

  // A media download: an error, a 206 with the range, or a 200 with the whole
  // file because the server ignored the range.
  datatype Download = Failed | Partial(body: seq<Byte>) | Whole(body: seq<Byte>)

  function Min(a: nat, b: nat): nat { if a < b then a else b }

  // What an honest server may answer to a request for `len` bytes at `start`.
  ghost predicate Honest(file: seq<Byte>, start: nat, len: nat, d: Download) {
    match d
    case Failed => true
    case Partial(body) => start < |file| && len > 0 && body == file[start..Min(start + len, |file|)]
    case Whole(body) => body == file
  }

  // The remote file, and how many of the requests to it failed: a failure
  // counts from when the thread that sent the request acts on it.
  class Remote {
    const file: seq<Byte>
    ghost var failures: nat

    constructor (file: seq<Byte>)
      ensures this.file == file && failures == 0
    {
      this.file := file;
      failures := 0;
    }

    method Get(start: nat, len: nat) returns (d: Download)
      modifies this
      ensures Honest(file, start, len, d)
      ensures failures == old(failures) + if d.Failed? then 1 else 0
    {
      var kind: nat := *;
      if kind == 0 && start < |file| && len > 0 {
        d := Partial(file[start..Min(start + len, |file|)]);
      } else if kind == 1 {
        d := Whole(file);
      } else {
        d := Failed;
        failures := failures + 1;
      }
    }
  }

  // ----- Blocks -----

  function BlockLength(file: seq<Byte>, start: nat, size: nat): nat {
    Min(size, if |file| > start then |file| - start else 0)
  }

  // At least the block: it starts where the block starts, reaches the end of
  // the block or of the file, and may go on (a 200 at offset 0 is kept whole).
  ghost predicate AtLeastBlock(file: seq<Byte>, size: nat, index: nat, data: seq<Byte>) {
    && index * size <= |file|
    && index * size + |data| <= |file|
    && data == file[index * size..index * size + |data|]
    && |data| >= Min(size, |file| - index * size)
  }

  // What was fetched under a full key of this file is at least that block.
  ghost predicate SoundFetch(f: Fetch, key: string, file: seq<Byte>) {
    forall size: nat, index: nat :: f.key == FullKey(key, size, index) && size > 0 && f.data.Some? ==>
      AtLeastBlock(file, size, index, f.data.value)
  }

  ghost predicate SoundFetches(fetches: Fetches, key: string, file: seq<Byte>) {
    forall g <- fetches :: SoundFetch(fetches[g], key, file)
  }

  lemma OneMoreIsSound(fetches: Fetches, g: nat, f: Fetch, key: string, file: seq<Byte>)
    requires SoundFetches(fetches, key, file) && SoundFetch(f, key, file)
    ensures SoundFetches(fetches[g := f], key, file)
  {
  }

  // A block of this file is sound if it is at least the block its own key
  // names: no other block has that key.
  lemma BlockIsSound(f: Fetch, key: string, file: seq<Byte>, size: nat, index: nat)
    requires f.key == FullKey(key, size, index)
    requires f.data.Some? ==> AtLeastBlock(file, size, index, f.data.value)
    ensures SoundFetch(f, key, file)
  {
    forall s: nat, i: nat | f.key == FullKey(key, s, i) && s > 0 && f.data.Some?
      ensures AtLeastBlock(file, s, i, f.data.value)
    {
      FullKeyIsInjective(key, s, i, key, size, index);
    }
  }

  lemma OtherFileIsSound(f: Fetch, other: string, size: nat, index: nat, key: string, file: seq<Byte>)
    requires f.key == FullKey(other, size, index) && other != key
    ensures SoundFetch(f, key, file)
  {
    forall s: nat, i: nat | f.key == FullKey(key, s, i) ensures false {
      FullKeyIsInjective(key, s, i, other, size, index);
    }
  }

  lemma ResolvedIsSound(fetches: Fetches, g: nat, key: string, file: seq<Byte>)
    requires SoundFetches(fetches, key, file) && g in fetches
    ensures SoundFetches(fetches[g := fetches[g].(phase := Resolved)], key, file)
  {
    assert SoundFetch(fetches[g], key, file);
    OneMoreIsSound(fetches, g, fetches[g].(phase := Resolved), key, file);
  }

  lemma SoundIsAtLeast(fetches: Fetches, g: nat, key: string, file: seq<Byte>, size: nat, index: nat)
    requires SoundFetches(fetches, key, file) && g in fetches && size > 0
    requires fetches[g].key == FullKey(key, size, index) && fetches[g].data.Some?
    ensures AtLeastBlock(file, size, index, fetches[g].data.value)
  {
    assert SoundFetch(fetches[g], key, file);
  }

  // ----- One fetch: download, take the outcome to the cache -----

  // What arrived, normalised to start at the block.
  method FetchBlock(remote: Remote, start: nat, len: nat) returns (data: Option<seq<Byte>>)
    modifies remote
    ensures data.None? ==> remote.failures > old(remote.failures) || start >= |remote.file|
    ensures remote.failures >= old(remote.failures)
    ensures data.Some? ==>
      && start + |data.value| <= |remote.file|
      && data.value == remote.file[start..start + |data.value|]
      && |data.value| >= Min(len, |remote.file| - start)
  {
    var d := remote.Get(start, len);
    match d
    case Failed => return None;
    case Partial(body) => return Some(body);
    case Whole(body) =>
      if start > 0 {
        if |body| <= start {
          return None;
        }
        return Some(body[start..Min(start + len, |body|)]);
      }
      return Some(body);
  }

  // The fetching thread takes the outcome to the cache.
  method Report(cache: GDriveBlockCache, fullKey: string, g: nat, data: Option<seq<Byte>>)
    requires cache.Valid() && g in cache.fetches && cache.fetches[g] == Fetch(fullKey, Fetching, None)
    modifies cache
    ensures cache.Valid()
    ensures cache.fetches == old(cache.fetches)[g := Fetch(fullKey, if data.Some? then Stored else Dropped, data)]
  {
    match data
    case Some(bytes) => var _, _ := cache.Account(fullKey, g, bytes);
    case None => cache.Erase(fullKey, g);
  }

  // The fetch of a block of this file.
  method FetchAndReport(cache: GDriveBlockCache, remote: Remote, key: string, size: nat, index: nat, g: nat)
    returns (data: Option<seq<Byte>>)
    requires cache.Valid() && SoundFetches(cache.fetches, key, remote.file) && size > 0
    requires g in cache.fetches && cache.fetches[g] == Fetch(FullKey(key, size, index), Fetching, None)
    modifies cache, remote
    ensures cache.Valid() && SoundFetches(cache.fetches, key, remote.file)
    ensures cache.fetches ==
      old(cache.fetches)[g := Fetch(FullKey(key, size, index), if data.Some? then Stored else Dropped, data)]
    ensures data.None? ==> remote.failures > old(remote.failures) || index * size >= |remote.file|
    ensures remote.failures >= old(remote.failures)
  {
    hide SoundFetches, SoundFetch, GDriveBlockCache.Valid;
    var start := index * size;
    var len := BlockLength(remote.file, start, size);
    data := FetchBlock(remote, start, len);
    Report(cache, FullKey(key, size, index), g, data);
    BlockIsSound(cache.fetches[g], key, remote.file, size, index);
    OneMoreIsSound(old(cache.fetches), g, cache.fetches[g], key, remote.file);
  }

  // ----- Other threads -----

  // One step of another thread, at any block of any file: it begins, takes the
  // outcome of its download to the cache or resolves its promise; or someone
  // empties the cache or changes its capacity. The fetch `mine` is not theirs.
  method OthersStep(cache: GDriveBlockCache, remote: Remote, key: string, mine: nat)
    requires cache.Valid() && SoundFetches(cache.fetches, key, remote.file)
    modifies cache, remote
    ensures cache.Valid() && SoundFetches(cache.fetches, key, remote.file)
    ensures mine in old(cache.fetches) ==> mine in cache.fetches && cache.fetches[mine] == old(cache.fetches[mine])
    ensures remote.failures >= old(remote.failures)
  {
    hide SoundFetches, SoundFetch, GDriveBlockCache.Valid;
    var step: nat, other: string, size: nat, index: nat, g: nat, n: nat := *, *, *, *, *, *;
    var fullKey := FullKey(other, size, index);
    if step == 0 {
      var iFetch, h := cache.Begin(fullKey);
      if iFetch {
        NotYetIsSound(fullKey, key, remote.file);
        OneMoreIsSound(old(cache.fetches), h, Fetch(fullKey, Fetching, None), key, remote.file);
      }
    } else if step == 1 {
      var _, _ := cache.SetCapacity(n);
    } else if step == 2 {
      cache.Clear();
    } else if g in cache.fetches && g != mine {
      if cache.fetches[g].phase == Stored || cache.fetches[g].phase == Dropped {
        ResolvedIsSound(cache.fetches, g, key, remote.file);
        cache.Resolve(g);
      } else if cache.fetches[g] == Fetch(fullKey, Fetching, None) && size > 0 {
        OthersOutcome(cache, remote, key, other, size, index, g);
      }
    }
  }

  lemma NotYetIsSound(fullKey: string, key: string, file: seq<Byte>)
    ensures SoundFetch(Fetch(fullKey, Fetching, None), key, file)
  {
  }

  // Of this file the other thread gets what the same server sends; of another
  // file, anything.
  method OthersOutcome(cache: GDriveBlockCache, remote: Remote, key: string, other: string, size: nat, index: nat,
                       g: nat)
    requires cache.Valid() && SoundFetches(cache.fetches, key, remote.file) && size > 0
    requires g in cache.fetches && cache.fetches[g] == Fetch(FullKey(other, size, index), Fetching, None)
    modifies cache, remote
    ensures cache.Valid() && SoundFetches(cache.fetches, key, remote.file)
    ensures g in cache.fetches && cache.fetches == old(cache.fetches)[g := cache.fetches[g]]
    ensures remote.failures >= old(remote.failures)
  {
    hide SoundFetches, SoundFetch, GDriveBlockCache.Valid;
    if other == key {
      var _ := FetchAndReport(cache, remote, key, size, index, g);
    } else {
      var data: Option<seq<Byte>> := *;
      Report(cache, FullKey(other, size, index), g, data);
      OtherFileIsSound(cache.fetches[g], other, size, index, key, remote.file);
      OneMoreIsSound(old(cache.fetches), g, cache.fetches[g], key, remote.file);
    }
  }

  // Any number of their steps.
  method Others(cache: GDriveBlockCache, remote: Remote, key: string, mine: nat)
    requires cache.Valid() && SoundFetches(cache.fetches, key, remote.file)
    modifies cache, remote
    ensures cache.Valid() && SoundFetches(cache.fetches, key, remote.file)
    ensures mine in old(cache.fetches) ==> mine in cache.fetches && cache.fetches[mine] == old(cache.fetches[mine])
    ensures remote.failures >= old(remote.failures)
  {
    hide SoundFetches, GDriveBlockCache.Valid;
    var steps: nat := *;
    while steps > 0
      invariant cache.Valid() && SoundFetches(cache.fetches, key, remote.file)
      invariant mine in old(cache.fetches) ==> mine in cache.fetches && cache.fetches[mine] == old(cache.fetches[mine])
      invariant remote.failures >= old(remote.failures)
    {
      OthersStep(cache, remote, key, mine);
      steps := steps - 1;
    }
  }

  // ----- Getting a block -----

  // The fetch g of this block goes on to its end, in the thread that runs it,
  // whatever happens in between; then its future holds what it brought.
  method RunToEnd(cache: GDriveBlockCache, remote: Remote, key: string, size: nat, index: nat, g: nat)
    requires cache.Valid() && SoundFetches(cache.fetches, key, remote.file) && size > 0
    requires g in cache.fetches && cache.fetches[g].key == FullKey(key, size, index)
      && MayStillDeliver(cache.fetches[g])
    modifies cache, remote
    ensures cache.Valid() && SoundFetches(cache.fetches, key, remote.file) && remote.failures >= old(remote.failures)
    ensures g in cache.fetches && cache.fetches[g].key == FullKey(key, size, index)
    ensures cache.fetches[g].phase == Resolved && g in cache.futures && cache.futures[g] == cache.fetches[g].data
    ensures cache.fetches[g].data.None? ==> remote.failures > old(remote.failures) || index * size >= |remote.file|
  {
    hide SoundFetches, SoundFetch, GDriveBlockCache.Valid;
    Others(cache, remote, key, g);
    if cache.fetches[g].phase == Fetching {
      var _ := FetchAndReport(cache, remote, key, size, index, g);
      Others(cache, remote, key, g);
    }
    if cache.fetches[g].phase != Resolved {
      ResolvedIsSound(cache.fetches, g, key, remote.file);
      cache.Resolve(g);
      Others(cache, remote, key, g);
    }
    WhatFuturesHold(cache, g);
  }

  // A fetch that has not failed.
  predicate MayStillDeliver(f: Fetch) {
    if f.phase == Fetching then f.data.None? else f.phase != Dropped && f.data.Some?
  }

  lemma WhatFuturesHold(cache: GDriveBlockCache, g: nat)
    requires cache.Valid() && g in cache.fetches && cache.fetches[g].phase == Resolved
    ensures g in cache.futures && cache.futures[g] == cache.fetches[g].data
  {
  }

  lemma MappedMayDeliver(cache: GDriveBlockCache, k: string)
    requires cache.Valid() && k in cache.blocks
    ensures var g := cache.blocks[k].generation;
            g in cache.fetches && cache.fetches[g].key == k && MayStillDeliver(cache.fetches[g])
  {
    var g := cache.blocks[k].generation;
    assert EntryOwned(cache.blocks[k], k, cache.fetches, cache.clock);
    assert PhaseOk(cache.fetches[g]);
  }

  // Join the fetch of the block, or run one. Either way what is returned is
  // what the fetch g brought, and g was made under this block's full key:
  // other threads may have emptied the cache and fetched the block anew since.
  method GetBlock(cache: GDriveBlockCache, remote: Remote, key: string, index: nat, size: nat)
    returns (data: Option<seq<Byte>>, ghost g: nat)
    requires size > 0 && cache.Valid() && SoundFetches(cache.fetches, key, remote.file)
    modifies cache, remote
    ensures cache.Valid() && SoundFetches(cache.fetches, key, remote.file)
    ensures g in cache.fetches && cache.fetches[g] == Fetch(FullKey(key, size, index), Resolved, data)
    ensures data.Some? ==> AtLeastBlock(remote.file, size, index, data.value)
    ensures data.None? ==> remote.failures > old(remote.failures) || index * size >= |remote.file|
    ensures remote.failures >= old(remote.failures)
  {
    hide SoundFetches, SoundFetch, GDriveBlockCache.Valid;
    Others(cache, remote, key, 0);
    var fullKey := FullKey(key, size, index);
    ghost var before := cache.fetches;
    var iFetch, generation := cache.Begin(fullKey);
    g := generation;
    MappedMayDeliver(cache, fullKey);
    if iFetch {
      NotYetIsSound(fullKey, key, remote.file);
      OneMoreIsSound(before, g, Fetch(fullKey, Fetching, None), key, remote.file);
      Others(cache, remote, key, generation);
      data := FetchAndReport(cache, remote, key, size, index, generation);
      Others(cache, remote, key, generation);
      ResolvedIsSound(cache.fetches, g, key, remote.file);
      cache.Resolve(generation);
    } else {
      RunToEnd(cache, remote, key, size, index, generation);
      data := cache.futures[generation];
    }
    if data.Some? {
      SoundIsAtLeast(cache.fetches, g, key, remote.file, size, index);
    }
  }

  lemma BlockOf(pos: nat, size: nat)
    requires size > 0
    ensures (pos / size) * size <= pos < (pos / size) * size + size
  {
  }

  // A block that does not reach a position in it ends with the file.
  lemma WhatBlockHolds(file: seq<Byte>, size: nat, index: nat, data: seq<Byte>, pos: nat)
    requires AtLeastBlock(file, size, index, data) && index * size <= pos < index * size + size
    ensures index * size + |data| <= |file| && data == file[index * size..index * size + |data|]
    ensures pos - index * size >= |data| ==> pos >= |file|
  {
  }

  // ----- The two ways to read a range -----

  // buffer[..at] is the file from location on.
  ghost predicate Assembled(file: seq<Byte>, location: nat, bytes: seq<Byte>, at: nat) {
    && at <= |bytes| && (at > 0 ==> location + at <= |file|)
    && forall i :: 0 <= i < at ==> bytes[i] == file[location + i]
  }

  lemma AssembledIsSlice(file: seq<Byte>, location: nat, bytes: seq<Byte>, at: nat)
    requires Assembled(file, location, bytes, at) && at > 0
    ensures bytes[..at] == file[location..location + at]
  {
  }

  lemma AssembledOneMore(file: seq<Byte>, location: nat, before: seq<Byte>, after: seq<Byte>, at: nat, block: seq<Byte>,
                         start: nat, take: nat)
    requires Assembled(file, location, before, at) && at + take <= |after| && |before| == |after|
    requires start <= location + at && start + |block| <= |file| && block == file[start..start + |block|]
    requires location + at - start + take <= |block| && take > 0
    requires after[..at] == before[..at]
    requires after[at..at + take] == block[location + at - start..][..take]
    ensures Assembled(file, location, after, at + take)
  {
    forall i | 0 <= i < at + take ensures after[i] == file[location + i] {
      if i < at {
        assert after[i] == after[..at][i] == before[..at][i];
      } else {
        assert after[i] == after[at..at + take][i - at] == block[location + at - start..][..take][i - at];
      }
    }
  }

  method CopyOut(buffer: array<Byte>, at: nat, block: seq<Byte>, within: nat, take: nat)
    requires at + take <= buffer.Length && within + take <= |block|
    modifies buffer
    ensures buffer[..at] == old(buffer[..at]) && buffer[at + take..] == old(buffer[at + take..])
    ensures buffer[at..at + take] == block[within..][..take]
  {
    forall i | at <= i < at + take {
      buffer[i] := block[within + (i - at)];
    }
  }

  // One turn of the loop: as much as the block that holds pos has to give.
  method CopyFromBlock(cache: GDriveBlockCache, remote: Remote, key: string, size: nat, buffer: array<Byte>, at: nat,
                       remaining: nat, location: nat)
    returns (ok: bool, take: nat)
    requires size > 0 && at + remaining <= buffer.Length && remaining > 0
    requires cache.Valid() && SoundFetches(cache.fetches, key, remote.file)
    requires Assembled(remote.file, location, buffer[..], at)
    modifies cache, remote, buffer
    ensures cache.Valid() && SoundFetches(cache.fetches, key, remote.file) && remote.failures >= old(remote.failures)
    ensures ok ==> 0 < take <= remaining && Assembled(remote.file, location, buffer[..], at + take)
    ensures buffer[at + remaining..] == old(buffer[at + remaining..])
    ensures !ok ==> remote.failures > old(remote.failures) || location + at + 1 > |remote.file|
  {
    hide SoundFetches, GDriveBlockCache.Valid, Assembled, FullKey, AtLeastBlock;
    take := 0;
    var pos := location + at;
    var index := pos / size;
    BlockOf(pos, size);
    var block, _ := GetBlock(cache, remote, key, index, size);
    if block.None? {
      return false, take;
    }
    WhatBlockHolds(remote.file, size, index, block.value, pos);
    var start := index * size;
    var within := pos - start;
    if within >= |block.value| {
      return false, take;
    }
    take := Min(remaining, |block.value| - within);
    ghost var before := buffer[..];
    CopyOut(buffer, at, block.value, within, take);
    AssembledOneMore(remote.file, location, before, buffer[..], at, block.value, start, take);
    ok := true;
  }

  // Fills buffer[..n] with the file's bytes at location, whatever mix of
  // cached, partial and whole answers serves it; fails only when the range
  // leaves the file or a request failed.
  method ReadViaBlockCache(cache: GDriveBlockCache, remote: Remote, key: string, size: nat, buffer: array<Byte>, n: nat,
                           location: nat)
    returns (ok: bool)
    requires size > 0 && n <= buffer.Length
    requires cache.Valid() && SoundFetches(cache.fetches, key, remote.file)
    modifies cache, remote, buffer
    ensures cache.Valid() && SoundFetches(cache.fetches, key, remote.file)
    ensures ok && n > 0 ==>
      location + n <= |remote.file| && buffer[..n] == remote.file[location..location + n]
    ensures forall i :: n <= i < buffer.Length ==> buffer[i] == old(buffer[i])
    ensures !ok ==> remote.failures > old(remote.failures) || location + n > |remote.file|
  {
    var remaining, outOffset := n, 0;
    while remaining > 0
      invariant outOffset + remaining == n && Assembled(remote.file, location, buffer[..], outOffset)
      invariant forall i :: n <= i < buffer.Length ==> buffer[i] == old(buffer[i])
      invariant cache.Valid() && SoundFetches(cache.fetches, key, remote.file)
        && remote.failures >= old(remote.failures)
    {
      var took;
      ok, took := CopyFromBlock(cache, remote, key, size, buffer, outOffset, remaining, location);
      if !ok {
        return;
      }
      remaining, outOffset := remaining - took, outOffset + took;
    }
    if n > 0 {
      AssembledIsSlice(remote.file, location, buffer[..], n);
      assert buffer[..][..n] == buffer[..n];
    }
    ok := true;
  }

  // One response for exactly the range, copied out.
  method ReadExactRangeTail(buffer: array<Byte>, n: nat, location: nat, resp: Download) returns (ok: bool)
    requires n <= buffer.Length && !resp.Failed?
    modifies buffer
    ensures ok <==> n <= |Tail(resp, location)| && (resp.Whole? && location > 0 ==> location < |resp.body|)
    ensures ok ==> buffer[..n] == Tail(resp, location)[..n] && buffer[n..] == old(buffer[n..])
    ensures !ok ==> buffer[..] == old(buffer[..])
  {
    var src := 0;
    var avail := |resp.body|;
    if resp.Whole? && location > 0 {
      if avail <= location {
        return false;
      }
      src := location;
      avail := avail - location;
    }
    if avail < n {
      return false;
    }
    forall i | 0 <= i < n {
      buffer[i] := resp.body[src + i];
    }
    ok := true;
  }

  // The bytes of a response from location on.
  function Tail(resp: Download, location: nat): seq<Byte>
    requires !resp.Failed?
  {
    if resp.Partial? || location == 0 then resp.body
    else if location <= |resp.body| then resp.body[location..] else []
  }

  // Both ways agree: an exact response within the file holds the same slice.
  lemma ExactTailIsTheSlice(file: seq<Byte>, location: nat, n: nat, resp: Download)
    requires n > 0 && Honest(file, location, n, resp) && !resp.Failed?
    ensures n <= |Tail(resp, location)| && (resp.Whole? && location > 0 ==> location < |resp.body|) <==>
      location + n <= |file|
    ensures location + n <= |file| ==> Tail(resp, location)[..n] == file[location..location + n]
  {
  }

  // ----- Positional and sequential reads -----

  // A read at an offset, which leaves the cursor alone: through the block cache,
  // or with one request where there are no blocks or the file is empty.
  method ReadAt(cache: GDriveBlockCache, remote: Remote, key: string, size: nat, buffer: array<Byte>, n: nat,
                location: nat)
    returns (ok: bool)
    requires n <= buffer.Length
    requires cache.Valid() && SoundFetches(cache.fetches, key, remote.file)
    modifies cache, remote, buffer
    ensures cache.Valid() && SoundFetches(cache.fetches, key, remote.file)
    ensures ok && n > 0 ==>
      location + n <= |remote.file| && buffer[..n] == remote.file[location..location + n]
    ensures buffer[n..] == old(buffer[n..])
    ensures !ok ==> n > 0 && (remote.failures > old(remote.failures) || location + n > |remote.file|)
  {
    if n == 0 {
      return true;
    }
    if size > 0 && |remote.file| > 0 {
      ok := ReadViaBlockCache(cache, remote, key, size, buffer, n, location);
      return;
    }
    var resp := remote.Get(location, n);
    if resp.Failed? {
      return false;
    }
    ExactTailIsTheSlice(remote.file, location, n, resp);
    ok := ReadExactRangeTail(buffer, n, location, resp);
  }

  class ReadHandle {
    var position: nat

    // Reads on from the cursor, at most to the end of the file, and moves the
    // cursor exactly past what was read.
    method Read(cache: GDriveBlockCache, remote: Remote, key: string, size: nat, buffer: array<Byte>, n: nat)
      returns (ok: bool, count: nat)
      requires n <= buffer.Length
      requires cache.Valid() && SoundFetches(cache.fetches, key, remote.file)
      modifies this, cache, remote, buffer
      ensures cache.Valid() && SoundFetches(cache.fetches, key, remote.file)
      ensures ok ==> count == Min(n, if old(position) < |remote.file| then |remote.file| - old(position) else 0)
      ensures ok ==> position == old(position) + count
      ensures ok && count > 0 ==> buffer[..count] == remote.file[old(position)..position]
      ensures !ok ==> position == old(position) && remote.failures > old(remote.failures)
    {
      count := Min(n, if |remote.file| > position then |remote.file| - position else 0);
      if count == 0 {
        return true, 0;
      }
      ok := ReadAt(cache, remote, key, size, buffer, count, position);
      if ok {
        position := position + count;
      }
    }
  }
}
