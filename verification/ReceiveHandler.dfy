/** src/win32_receive_handler.c: the callbacks that tie the protocol to one file receiver. */
module ReceiveHandler {
  import opened Bytes
  import opened Wire
  import opened Storage
  import opened Fips180
  import opened FileReceive
  import opened ReceiveTrace
  import Filename

  class Handler {
    const sink: FileSink
    const hash: HashContext
    const receiver: FileReceiver
    var active: bool
    ghost var filenameRefused: bool
    const jobIds: nat -> bool
    var jobIdsMade: nat

    ghost predicate Valid()
      reads this, sink, hash, receiver
    {
      receiver.sink == sink && receiver.hash == hash && receiver.Valid() &&
      (active ==> receiver.state == Receiving || receiver.state == Failed) &&
      (receiver.state == Idle || receiver.state == Complete || receiver.state == Aborted ==> !active)
    }

    /** A file still being received that nothing will ever finish or abort. */
    ghost predicate Leaked()
      reads this, receiver
    {
      !active && receiver.state == Receiving
    }

    /** Some call the environment may fail did fail, cleanup apart. */
    ghost predicate Faulted()
      reads this, sink, hash
    {
      !AllGood(jobIds, 0, jobIdsMade) || sink.Faulted() || hash.Faulted()
    }

    /** All of it runs on that platform. */
    ghost predicate On(platform: Platform)
    {
      sink.platform == platform && hash.outcomes == platform.hashing && jobIds == platform.jobIds
    }

    /** Where nothing fails, nothing has failed. */
    lemma NeverFaulted(platform: Platform)
      requires On(platform) && forall i: nat :: platform.calls(i) && platform.hashing(i) && platform.jobIds(i)
      ensures !Faulted()
    {
      GoodThroughout(jobIds, 0, jobIdsMade);
      GoodThroughout(platform.calls, 0, sink.called);
      GoodThroughout(platform.hashing, 0, hash.called);
    }

    /** pd_win32_receive_handler_init */
    constructor (platform: Platform)
      ensures Valid() && !active && receiver.state == Idle && receiver.receivedBytes == 0 && !filenameRefused &&
              !Faulted()
      ensures fresh(sink) && fresh(hash) && fresh(receiver) && On(platform)
    {
      var s := new FileSink(platform);
      var h := new HashContext(platform.hashing);
      var r := new FileReceiver(s, h);
      sink, hash, receiver, active, filenameRefused := s, h, r, false, false;
      jobIds, jobIdsMade := platform.jobIds, 0;
    }

    /**
     pd_win32_receive_begin, for the first file of a handler or a later one. Only a sink that cannot be set up
     after a finished or a leaked file leaves the pieces out of step, since the receiver then still tells of that file.
     */
    method Begin(meta: FileMeta, name: ByteString) returns (ok: bool)
      requires Valid() && ValidMeta(meta) && 0 !in name
      modifies this, sink, hash, receiver
      ensures Valid() || (!ok && (old(receiver.state) == Complete || old(Leaked())))
      ensures old(active) ==> !ok && unchanged(this) && unchanged(sink) && unchanged(hash) && unchanged(receiver)
      ensures ok ==> active && receiver.state == Receiving && receiver.receivedBytes == 0 && sink.staging == Some([])
      ensures ok ==>
              receiver.expectedBytes == meta.size && receiver.expectedSha256 == meta.digest &&
              receiver.integrityConfigured
      ensures !ok && !old(active) ==> !active && (receiver.state == old(receiver.state) || receiver.state == Failed)
      ensures !ok && !old(active) && old(receiver.state) == Idle ==> receiver.receivedBytes == 0
      ensures Filename.IsNormal(name) ==> filenameRefused == old(filenameRefused)
      ensures !ok && !old(active) && Filename.IsNormal(name) ==> Faulted()
      ensures old(Faulted()) ==> Faulted()
    {
      hide Filename.IsNormal, Sha256, AllGood;
      if active {
        return false;
      }
      var jobId := MakeJobId();
      if !jobId {
        return false;
      }
      var ready := sink.Init(true, name);
      filenameRefused := filenameRefused || ready == SinkInvalidFilename;
      if ready != SinkReady {
        return false;
      }
      Configure(meta);
      var begun := receiver.Begin();
      if begun != ReceiveOk {
        return false;
      }
      active := true;
      return true;
    }

    /** Lines 44-46: a fresh job identifier, if the platform has one to give. */
    method MakeJobId() returns (ok: bool)
      modifies this`jobIdsMade
      ensures jobIdsMade == old(jobIdsMade) + 1 && ok == jobIds(old(jobIdsMade))
      ensures AllGood(jobIds, 0, jobIdsMade) <==> old(AllGood(jobIds, 0, jobIdsMade)) && ok
    {
      ok := jobIds(jobIdsMade);
      jobIdsMade := jobIdsMade + 1;
    }

    /** Lines 55-68: hash and receiver set up afresh for the announced file. */
    method Configure(meta: FileMeta)
      requires receiver.sink == sink && receiver.hash == hash && sink.Untouched() && |meta.digest| == DIGEST_SIZE
      modifies hash, receiver
      ensures receiver.Valid() && receiver.state == Idle && receiver.receivedBytes == 0 &&
              hash.Faulted() == old(hash.Faulted())
      ensures receiver.expectedBytes == meta.size && receiver.expectedSha256 == meta.digest &&
              receiver.integrityConfigured
    {
      hide Sha256;
      hash.Init();
      receiver.Init(meta.size);
      var _ := receiver.ConfigureIntegrity(meta.digest);
    }

    /** pd_win32_receive_chunk */
    method Chunk(data: array<Byte>, offset: nat, size: nat) returns (ok: bool)
      requires Valid() && offset + size <= data.Length
      modifies sink, hash, receiver
      ensures Valid()
      ensures ok ==>
              active && receiver.state == Receiving && 0 < size &&
              receiver.receivedBytes == old(receiver.receivedBytes) + size
      ensures ok ==>
              old(sink.staging).Some? &&
              sink.staging == Some(old(sink.staging).value + data[offset..offset + size])
      ensures !ok ==> receiver.receivedBytes == old(receiver.receivedBytes)
      ensures !ok && old(receiver.state) != Complete ==> receiver.state != Complete
      ensures !ok && active && old(receiver.state) == Receiving ==>
              Faulted() || size == 0 || size > FRAME_MAX_PAYLOAD ||
              receiver.receivedBytes + size > receiver.expectedBytes
      ensures old(Faulted()) ==> Faulted()
      ensures receiver.expectedBytes == old(receiver.expectedBytes) &&
              receiver.expectedSha256 == old(receiver.expectedSha256)
      ensures receiver.integrityConfigured == old(receiver.integrityConfigured)
    {
      hide Sha256;
      if !active {
        return false;
      }
      var r := receiver.Write(data, offset, size);
      return r == ReceiveOk;
    }

    /** pd_win32_receive_finish: `active` is cleared whatever the receiver answered. */
    method Finish() returns (ok: bool)
      requires Valid()
      modifies this`active, sink, hash, receiver
      ensures Valid() && !active
      ensures ok ==> receiver.state == Complete && sink.final == old(sink.staging)
      ensures !ok && old(receiver.state) != Complete ==> receiver.state != Complete
      ensures !ok && old(active) && old(receiver.state) == Receiving ==>
              Faulted() || receiver.receivedBytes < receiver.expectedBytes ||
              Sha256(old(sink.staging).value) != receiver.expectedSha256
      ensures old(Faulted()) ==> Faulted()
      ensures old(active) ==>
              (Leaked() <==> old(receiver.state) == Receiving && receiver.receivedBytes < receiver.expectedBytes)
      ensures !old(active) ==> !ok && unchanged(this) && unchanged(sink) && unchanged(hash) && unchanged(receiver)
      ensures receiver.receivedBytes == old(receiver.receivedBytes) &&
              receiver.expectedBytes == old(receiver.expectedBytes)
      ensures receiver.expectedSha256 == old(receiver.expectedSha256) &&
              receiver.integrityConfigured == old(receiver.integrityConfigured)
    {
      hide Sha256;
      if !active {
        return false;
      }
      var r := receiver.Finish();
      active := false;
      return r == ReceiveOk;
    }

    /** pd_win32_receive_abort: does nothing once `active` is cleared. */
    method Abort()
      requires Valid()
      modifies this`active, sink, hash, receiver
      ensures Valid() && !active
      ensures old(active) ==> receiver.state == Failed || receiver.state == Aborted
      ensures !old(active) ==> unchanged(this) && unchanged(sink) && unchanged(hash) && unchanged(receiver)
      ensures receiver.receivedBytes == old(receiver.receivedBytes) && Faulted() == old(Faulted())
    {
      if !active {
        return;
      }
      receiver.Abort();
      active := false;
    }
  }
}
