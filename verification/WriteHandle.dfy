// A write handle from OpenFile to its end: sequential writes stream whole
// chunks into a resumable session, Close publishes, and a failed, cancelled or
// abandoned handle never does.
module WriteHandle {
  import opened Options
  import opened UploadPlan
  import opened DriveServer
  import opened DriveClient

  // What has become of the write, for specifications only.
  datatype Fate =
    | Live        // still writable; nothing published
    | Doomed      // nothing published, and nothing ever will be
    | Published   // exactly the written bytes were published, once
    | Unknown     // Close failed; the written bytes were published, once, or not at all

  datatype CloseResult = Returned | Threw(maybeApplied: bool)

  ghost predicate Untouched(s0: Store, s: Store) {
    s.log == s0.log && s.ids == s0.ids
  }

  ghost predicate PublishedOnce(s0: Store, s: Store, existing: Option<Id>, content: seq<Byte>) {
    exists id :: MayPublishAs(s0, existing, id)
      && s.log == s0.log + [Publication(id, content)] && s.ids == s0.ids + {id}
  }

  // Every create carries an id.
  ghost predicate Reserved(sent: seq<Sent>) { forall e <- sent :: e.req.Create? ==> e.req.reserved.Some? }

  lemma SplitAt(before: seq<Byte>, data: seq<Byte>, at: nat, took: nat)
    requires at + took <= |data|
    ensures before + data[..0] == before
    ensures before + data[..at] + data[at..][..took] == before + data[..at + took]
    ensures before + data[..at] <= before + data
    ensures at == |data| ==> before + data[..at] == before + data
  {
  }

  class GDriveFileHandle {
    const drive: Drive
    const existing: Option<Id>
    var isWrite: bool
    var writeFailed: bool
    var upload: ChunkedUploadBuffer?
    var sessionOpen: bool
    var position: nat
    ghost const atOpen: Store     // Drive as it was at OpenFile
    ghost var stream: seq<Byte>   // the bytes of all Write calls, in order
    ghost var fate: Fate

    ghost function Repr(): set<object>
      reads this
    {
      {this, drive} + if upload == null then {} else {upload}
    }

    ghost predicate Valid()
      reads this, Repr()
    {
      && drive.store.held <= stream
      && (upload != null ==> upload.Valid())
      && match fate
         case Live => isWrite && !writeFailed && Streaming(stream) && (upload.sentAny ==> upload.pending != [])
         case Doomed => writeFailed && !sessionOpen && Untouched(atOpen, drive.store)
         case Published =>
           !isWrite && !writeFailed && upload == null && !sessionOpen
           && PublishedOnce(atOpen, drive.store, existing, stream)
         case Unknown =>
           !isWrite && writeFailed && !sessionOpen
           && (Untouched(atOpen, drive.store) || PublishedOnce(atOpen, drive.store, existing, stream))
    }

    // Of `bytes`, the session holds what was sent and the buffer the rest.
    ghost predicate Streaming(bytes: seq<Byte>)
      reads this, Repr()
    {
      && upload != null && upload.Valid()
      && Untouched(atOpen, drive.store) && !drive.store.Done()
      && upload.offset <= |bytes| && upload.pending == bytes[upload.offset..]
      && drive.store.held == bytes[..upload.offset]
      && sessionOpen == upload.sentAny
      && (sessionOpen ==> drive.store.target == existing)
    }

    // Between writes, a live handle is exactly a streaming one.
    lemma LiveMeansStreaming()
      requires fate == Live && upload != null
      ensures Valid() <==>
        isWrite && !writeFailed && Streaming(stream) && (upload.sentAny ==> upload.pending != [])
    {
    }

    lemma DoomedIsValid()
      requires fate == Doomed && writeFailed && !sessionOpen && Untouched(atOpen, drive.store)
      requires drive.store.held <= stream && (upload != null ==> upload.Valid())
      ensures Valid()
    {
    }

    constructor (drive: Drive, existing: Option<Id>, chunkBytes: nat)
      requires drive.store.held == [] && !drive.store.Done()
      ensures Valid() && fate == Live && stream == [] && fresh(Repr() - {drive})
      ensures this.drive == drive && this.existing == existing && atOpen == drive.store
    {
      this.drive, this.existing, atOpen := drive, existing, drive.store;
      isWrite, writeFailed, sessionOpen, position := true, false, false, 0;
      stream, fate := [], Live;
      upload := new ChunkedUploadBuffer(chunkBytes);
    }

    // Sends the full pending chunk as a non-final one, opening the session
    // first when there is none. `arrived` is what reached the buffer so far.
    method SendUploadChunk(ghost arrived: seq<Byte>) returns (ok: bool)
      requires Streaming(arrived) && upload.Full()
      modifies `sessionOpen, upload, drive
      ensures upload.Valid() && Untouched(atOpen, drive.store) && drive.store.held <= arrived
      ensures ok ==> Streaming(arrived) && upload.pending == []
      ensures drive.failures >= old(drive.failures) && (!ok ==> drive.failures > old(drive.failures))
    {
      hide Answers, Wire, Meant, NoneEnds, Succeeds, Fails, Doubtful;
      ghost var started, call, asks, replies, answers;
      if !sessionOpen {
        ok, started, call := StartResumableUpload(drive, existing);
        if !ok {
          return;
        }
        sessionOpen := true;
      }
      assert arrived[..upload.offset] + upload.pending == arrived;
      var resp;
      resp, asks, replies, answers := UploadChunk(drive, upload, false);
      ok := resp.ok;
      if ok {
        upload.MarkChunkSent();
      }
    }

    method AbortUpload()
      modifies `sessionOpen, drive`requests
      ensures !sessionOpen && drive.requests == old(drive.requests) + if old(sessionOpen) then 1 else 0
    {
      if sessionOpen {
        sessionOpen := false;
        drive.CancelSession();
      }
    }

    // One turn of Write's loop: a full chunk goes up only now that more bytes
    // have arrived, and then the buffer takes what fits.
    method SendThenFill(rest: seq<Byte>, ghost arrived: seq<Byte>) returns (ok: bool, took: nat)
      requires Streaming(arrived) && rest != []
      modifies `sessionOpen, upload, drive
      ensures upload.Valid() && Untouched(atOpen, drive.store) && drive.store.held <= arrived
      ensures ok ==> 0 < took <= |rest| && Streaming(arrived + rest[..took]) && upload.pending != []
      ensures drive.failures >= old(drive.failures) && (!ok ==> drive.failures > old(drive.failures))
    {
      took := 0;
      if upload.Full() {
        ok := SendUploadChunk(arrived);
        if !ok {
          return;
        }
      }
      took := upload.Fill(rest);
      ok := true;
    }

    method StreamOne(data: seq<Byte>, at: nat, ghost before: seq<Byte>) returns (ok: bool, took: nat)
      requires at < |data| && Streaming(before + data[..at])
      modifies `sessionOpen, upload, drive
      ensures upload.Valid() && Untouched(atOpen, drive.store) && drive.store.held <= before + data
      ensures ok ==> 0 < took <= |data| - at && Streaming(before + data[..at + took]) && upload.pending != []
      ensures drive.failures >= old(drive.failures) && (!ok ==> drive.failures > old(drive.failures))
    {
      hide Streaming, Untouched, ChunkedUploadBuffer.Valid;
      ok, took := SendThenFill(data[at..], before + data[..at]);
      SplitAt(before, data, at, if ok then took else 0);
    }

    // Write's loop over the data; `before` is what earlier writes brought.
    method StreamAll(data: seq<Byte>, ghost before: seq<Byte>) returns (ok: bool)
      requires Streaming(before) && (upload.sentAny ==> upload.pending != [])
      modifies `sessionOpen, upload, drive
      ensures upload.Valid() && Untouched(atOpen, drive.store) && drive.store.held <= before + data
      ensures ok ==> Streaming(before + data) && (upload.sentAny ==> upload.pending != [])
      ensures drive.failures >= old(drive.failures) && (!ok ==> drive.failures > old(drive.failures))
    {
      StreamingFacts(before);
      hide Streaming, Untouched, ChunkedUploadBuffer.Valid;
      var at := 0;
      SplitAt(before, data, 0, 0);
      while at < |data|
        invariant at <= |data| && Streaming(before + data[..at])
        invariant upload.sentAny ==> upload.pending != []
        invariant drive.failures >= old(drive.failures)
      {
        var sent, took := StreamOne(data, at, before);
        if !sent {
          return false;
        }
        at := at + took;
      }
      SplitAt(before, data, at, 0);
      StreamingFacts(before + data);
      ok := true;
    }

    lemma StreamingFacts(bytes: seq<Byte>)
      requires Streaming(bytes)
      ensures upload.Valid() && Untouched(atOpen, drive.store) && drive.store.held <= bytes
    {
    }

    method Write(data: seq<Byte>) returns (ok: bool)
      requires Valid()
      modifies this, drive, upload
      ensures Valid() && upload == old(upload)
      ensures old(fate) != Live ==>
        !ok && fate == old(fate) && stream == old(stream) && drive.store == old(drive.store)
      ensures old(fate) == Live ==> stream == old(stream) + data && fate == (if ok then Live else Doomed)
      ensures ok ==> position == old(position) + |data|
      // On a live handle it fails only when the network or the service did.
      ensures !ok && old(fate) == Live ==> drive.failures > old(drive.failures)
    {
      if !isWrite || upload == null || writeFailed {
        return false;
      }
      LiveMeansStreaming();
      hide Valid, Streaming, Untouched;
      ok := StreamAll(data, stream);
      stream := stream + data;
      if !ok {
        writeFailed := true;
        fate := Doomed;
        AbortUpload();
        DoomedIsValid();
        return;
      }
      position := position + |data|;
      LiveMeansStreaming();
    }

    // A file that never outgrew a chunk: one request, under a reserved id if it
    // creates one and the id could be had.
    method UploadWhole() returns (resp: DriveResponse)
      requires upload != null && Streaming(stream) && !upload.sentAny
      modifies drive
      ensures drive.store.held <= stream && upload.Valid()
      ensures resp.ok ==> PublishedOnce(atOpen, drive.store, existing, stream)
      ensures Untouched(atOpen, drive.store) || PublishedOnce(atOpen, drive.store, existing, stream)
      ensures drive.failures >= old(drive.failures) && (!resp.ok ==> drive.failures > old(drive.failures))
      ensures old(drive.history) <= drive.history
      ensures drive.failures == old(drive.failures) ==> Reserved(drive.history[|old(drive.history)|..])
    {
      hide Answers, Wire;
      assert upload.pending == stream;
      var reserved := None;
      ghost var call, check, first;
      if existing.None? {
        reserved, first, call := GenerateFileId(drive);
        WireIsOf(ReserveId, call.turns);
      }
      resp, first, call, check := Upload(drive, existing, upload.pending, reserved);
      WireIsOf(UploadRequest(existing, upload.pending, reserved), call.turns);
      if reserved.Some? {
        WireIsOf(Fetch(reserved.value), check.turns);
      }
    }

    // Publishes on the way out: the final chunk of the open session, or the
    // whole file in one request when it never outgrew a chunk.
    method UploadHandleContents() returns (resp: DriveResponse)
      requires upload != null && Streaming(stream) && (upload.sentAny ==> upload.pending != [])
      modifies `sessionOpen, drive
      ensures drive.store.held <= stream && upload.Valid()
      ensures resp.ok ==> !sessionOpen && PublishedOnce(atOpen, drive.store, existing, stream)
      ensures Untouched(atOpen, drive.store) || PublishedOnce(atOpen, drive.store, existing, stream)
      // A final chunk that fails without the flag was never published.
      ensures !resp.ok && upload.OnClose().FinalChunk? && !resp.maybeApplied ==> Untouched(atOpen, drive.store)
      // It fails only when something failed, and creates without a reserved id
      // only when something did before.
      ensures !resp.ok ==> drive.failures > old(drive.failures)
      ensures old(drive.history) <= drive.history
      ensures drive.failures == old(drive.failures) ==> Reserved(drive.history[|old(drive.history)|..])
    {
      if upload.OnClose().FinalChunk? {
        assert stream[..upload.offset] + upload.pending == stream;
        ghost var asks, replies, answers;
        resp, asks, replies, answers := UploadChunk(drive, upload, true);
        if !resp.ok {
          return;
        }
        sessionOpen := false;
      } else {
        resp := UploadWhole();
      }
    }

    method Close() returns (result: CloseResult)
      requires Valid()
      modifies this, drive
      ensures Valid() && !isWrite && stream == old(stream)
      // A Close of a live handle that returns has published exactly what was
      // written, exactly once; one that throws without the flag after
      // streaming has published nothing.
      ensures old(fate) == Live && result.Returned? ==> fate == Published
      ensures old(fate) == Live && result.Threw? ==> fate == Unknown || fate == Doomed
      ensures old(fate) == Live && result.Threw? && old(sessionOpen) && !result.maybeApplied ==> fate == Doomed
      ensures result.Threw? ==> drive.failures > old(drive.failures)
      ensures old(fate) != Live ==> result.Returned? && fate == old(fate) && drive.store == old(drive.store)
    {
      if !isWrite {
        return Returned;
      }
      isWrite := false;
      if writeFailed {
        AbortUpload();
        return Returned;
      }
      var resp := UploadHandleContents();
      if !resp.ok {
        writeFailed := true;
        AbortUpload();
        fate := if Untouched(atOpen, drive.store) then Doomed else Unknown;
        return Threw(resp.maybeApplied);
      }
      upload := null;
      fate := Published;
      return Returned;
    }

    method CancelWrite()
      requires Valid()
      modifies this, drive`requests
      ensures Valid() && stream == old(stream) && !isWrite
      ensures fate == if old(fate) == Live then Doomed else old(fate)
      ensures drive.requests == old(drive.requests) + if old(isWrite && sessionOpen) then 1 else 0
    {
      if !isWrite {
        return;
      }
      isWrite := false;
      writeFailed := true;
      AbortUpload();
      upload := null;
      fate := Doomed;
    }

    // The destructor: cancels a session left open, publishes nothing.
    method Destroy()
      requires Valid()
      modifies this, drive`requests
      ensures drive.store == old(drive.store) && !sessionOpen
      ensures drive.requests == old(drive.requests) + if old(sessionOpen) then 1 else 0
    {
      AbortUpload();
    }
  }
}
