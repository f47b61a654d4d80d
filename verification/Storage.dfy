/**
 What the receiver stores through. `FileSink` is src/win32_file_sink.c over the
 part of the file system it touches: its staging path, its final path and one
 handle. `HashContext` is the contract of src/win32_sha256.c. Every operating-system
 call may fail: the outcomes, by number of the call, are given with the platform.
 */
module Storage {
  import opened Bytes
  import opened Fips180
  import opened Filename

  datatype SinkInitResult =
    | SinkReady
    | SinkInvalidJobId
    | SinkInvalidFilename
    | SinkInvalidUtf8
    | SinkPathTooLong
    | SinkNoRoot

  /** Lines 207-213: the name is a fixed point of the sanitizer. */
  method Recheck(name: ByteString) returns (ok: bool)
    requires 0 !in name
    ensures ok <==> IsNormal(name)
  {
    hide Sanitized, IsNormal;
    var checked := new Byte[121](_ => 0);
    var status, length := Sanitize(name, checked);
    FixedIsNormal(name);
    ResultFits(name);
    if status != SanitizeOk {
      return false;
    }
    assert checked[..length - 1] == Sanitized(name).name;
    return checked[..length - 1] == name;
  }

  lemma ResultFits(name: ByteString)
    ensures Sanitized(name).Ok? ==> |Sanitized(name).name| <= 120
  {
    hide Sanitized, IsReserved, IsClean;
    ResultIsNormal(name);
  }

  /** The outcomes of all calls from number `from` on and before number `to` were good. */
  function AllGood(outcomes: nat -> bool, from: nat, to: nat): bool
  {
    to <= from || (AllGood(outcomes, from, to - 1) && outcomes(to - 1))
  }

  lemma {:induction false} GoodThroughout(outcomes: nat -> bool, from: nat, to: nat)
    ensures AllGood(outcomes, from, to) <==> forall i: nat :: from <= i < to ==> outcomes(i)
  {
    if from < to {
      GoodThroughout(outcomes, from, to - 1);
    }
  }

  /**
   What the platform does: whether each storage call succeeds, how much of a short write gets through, whether each
   cleanup call succeeds, and likewise for hashing calls and for making a job identifier.
   */
  datatype Platform = Platform(
    calls: nat -> bool,
    lengths: nat -> nat,
    cleanups: nat -> bool,
    hashing: nat -> bool,
    jobIds: nat -> bool)

  class FileSink {
    const platform: Platform
    var initialized: bool
    var handleOpen: bool

    // The file system: the handle as the system sees it, and the files at the two paths.
    var systemHandle: bool
    var staging: Option<ByteString>
    var final: Option<ByteString>

    // The storage and the cleanup calls made so far, those made before the last init, and how often abort ran.
    var called: nat
    var cleaned: nat
    ghost var cleanedBefore: nat
    ghost var aborts: nat

    ghost predicate Valid()
      reads this
    {
      cleanedBefore <= cleaned && (handleOpen ==> systemHandle && staging.Some?)
    }

    /** Some storage call has failed. */
    ghost predicate Faulted()
      reads this`called
    {
      !AllGood(platform.calls, 0, called)
    }

    /** Some cleanup call has failed since the last init. */
    ghost predicate CleanupFailed()
      reads this`cleaned, this`cleanedBefore
    {
      !AllGood(platform.cleanups, cleanedBefore, cleaned)
    }

    ghost predicate Untouched()
      reads this
    {
      !handleOpen && !systemHandle && staging.None? && final.None? && aborts == 0 &&
      cleanedBefore <= cleaned && !CleanupFailed()
    }

    constructor (platform: Platform)
      ensures Untouched() && !initialized && !Faulted() && this.platform == platform
    {
      this.platform := platform;
      initialized, handleOpen, systemHandle := false, false, false;
      staging, final := None, None;
      called, cleaned, cleanedBefore, aborts := 0, 0, 0, 0;
    }

    method Call() returns (ok: bool)
      modifies this`called
      ensures called == old(called) + 1 && ok == platform.calls(old(called))
      ensures Faulted() <==> old(Faulted()) || !ok
    {
      ok := platform.calls(called);
      called := called + 1;
    }

    method CleanUp() returns (ok: bool)
      requires cleanedBefore <= cleaned
      modifies this`cleaned
      ensures cleaned == old(cleaned) + 1 && ok == platform.cleanups(old(cleaned))
      ensures CleanupFailed() <==> old(CleanupFailed()) || !ok
    {
      ok := platform.cleanups(cleaned);
      cleaned := cleaned + 1;
    }

    /**
     pd_win32_file_sink_init: the sink is cleared and pointed at the paths of a fresh
     job; the filename is sanitized again and must come out unchanged.
     */
    method Init(jobIdValid: bool, name: ByteString) returns (r: SinkInitResult)
      requires 0 !in name
      modifies this
      ensures Untouched() && (r.SinkReady? <==> initialized)
      ensures r.SinkInvalidJobId? <==> !jobIdValid
      ensures r.SinkInvalidFilename? <==> jobIdValid && !IsNormal(name)
      ensures Faulted() <==> old(Faulted()) || r in {SinkInvalidUtf8, SinkPathTooLong, SinkNoRoot}
      ensures r.SinkReady? ==> called == old(called) + 3
    {
      hide IsNormal, AllGood;
      initialized, handleOpen, systemHandle := false, false, false;
      staging, final := None, None;
      aborts, cleanedBefore := 0, cleaned;
      NothingCleaned();
      if !jobIdValid {
        return SinkInvalidJobId;
      }
      var unchangedName := Recheck(name);
      if !unchangedName {
        return SinkInvalidFilename;
      }
      var utf8 := Call();
      if !utf8 {
        return SinkInvalidUtf8;
      }
      var short := Call();
      if !short {
        return SinkPathTooLong;
      }
      var root := Call();
      if !root {
        return SinkNoRoot;
      }
      initialized := true;
      return SinkReady;
    }

    lemma NothingCleaned()
      requires cleanedBefore == cleaned
      ensures !CleanupFailed()
    {
    }

    /**
     pd_win32_sink_begin: directories and file are made, in that order. CREATE_NEW refuses if anything is at the staging
     path, and leaves it alone.
     */
    method Begin() returns (ok: bool)
      requires Valid()
      modifies this`handleOpen, this`systemHandle, this`staging, this`called
      ensures Valid()
      ensures ok <==> initialized && !old(handleOpen) && old(staging).None? &&
                      platform.calls(old(called)) && platform.calls(old(called) + 1)
      ensures ok ==> handleOpen && systemHandle && staging == Some([]) && called == old(called) + 2
      ensures !ok ==> unchanged(this`handleOpen) && unchanged(this`systemHandle) && unchanged(this`staging)
      ensures old(Faulted()) ==> Faulted()
      ensures !ok && initialized && !old(handleOpen) && old(staging).None? ==> Faulted()
    {
      hide AllGood;
      if !initialized || handleOpen {
        return false;
      }
      var directory := Call();
      if !directory || staging.Some? {
        return false;
      }
      var created := Call();
      if !created {
        return false;
      }
      handleOpen, systemHandle, staging := true, true, Some([]);
      return true;
    }

    /** pd_win32_sink_write: WriteFile may fail, and may write fewer bytes than asked. */
    method Write(data: array<Byte>, offset: nat, size: nat) returns (ok: bool, written: nat)
      requires Valid() && offset + size <= data.Length
      modifies this`staging, this`called
      ensures Valid()
      ensures ok <==> handleOpen && platform.calls(old(called))
      ensures ok ==>
              written <= size && staging == Some(old(staging).value + data[offset..offset + written]) &&
              (platform.calls(old(called) + 1) ==> written == size)
      ensures old(Faulted()) ==> Faulted()
      ensures handleOpen && (!ok || written != size) ==> Faulted()
    {
      hide AllGood;
      if !handleOpen {
        return false, 0;
      }
      ok := Call();
      var whole := Call();
      var count := if whole then size else Least(platform.lengths(called), size);
      staging := Some(staging.value + data[offset..offset + count]);
      return ok, if ok then count else 0;
    }

    /** pd_win32_sink_commit: flush, close, then rename without replacing. */
    method Commit() returns (ok: bool)
      requires Valid()
      modifies this`handleOpen, this`systemHandle, this`staging, this`final, this`called
      ensures Valid()
      ensures ok <==> old(handleOpen) && platform.calls(old(called)) && platform.calls(old(called) + 1) &&
                      platform.calls(old(called) + 2)
      ensures ok ==> !handleOpen && !systemHandle && staging.None? && final == old(staging) && called == old(called) + 3
      ensures !ok ==> final == old(final) && staging == old(staging)
      ensures !ok && old(handleOpen) && !handleOpen ==> !systemHandle
      ensures old(Faulted()) || (!ok && old(handleOpen)) ==> Faulted()
    {
      hide AllGood;
      if !handleOpen {
        return false;
      }
      var flushed := Call();
      if !flushed {
        return false;
      }
      var closed := Call();
      if !closed {
        return false;
      }
      handleOpen, systemHandle := false, false;
      var moved := Call();
      if !moved {
        return false;
      }
      staging, final := None, staging;
      return true;
    }

    /** pd_win32_sink_abort: the results of CloseHandle and DeleteFileW are not looked at. */
    method Abort()
      requires Valid()
      modifies this`handleOpen, this`systemHandle, this`staging, this`aborts, this`cleaned
      ensures Valid() && !handleOpen && aborts == old(aborts) + 1
      ensures cleaned == old(cleaned) + if old(handleOpen) then 2 else 1
      ensures !CleanupFailed() ==> (old(handleOpen) || !old(systemHandle) ==> !systemHandle && staging.None?)
      ensures old(CleanupFailed()) ==> CleanupFailed()
    {
      hide AllGood;
      aborts := aborts + 1;
      if handleOpen {
        var closed := CleanUp();
        systemHandle := !closed;
        handleOpen := false;
      }
      var deleted := CleanUp();
      if deleted && !systemHandle {
        staging := None;
      }
    }
  }

  function Least(a: nat, b: nat): nat { if a <= b then a else b }

  class HashContext {
    const outcomes: nat -> bool
    var active: bool
    var fed: ByteString
    var called: nat

    ghost predicate Faulted()
      reads this`called
    {
      !AllGood(outcomes, 0, called)
    }

    constructor (outcomes: nat -> bool)
      ensures !active && !Faulted() && this.outcomes == outcomes
    {
      this.outcomes := outcomes;
      active, fed, called := false, [], 0;
    }

    method Call() returns (ok: bool)
      modifies this`called
      ensures called == old(called) + 1 && ok == outcomes(old(called))
      ensures Faulted() <==> old(Faulted()) || !ok
    {
      ok := outcomes(called);
      called := called + 1;
    }

    method Init()
      modifies this`active, this`fed
      ensures !active
    {
      active, fed := false, [];
    }

    method Begin() returns (ok: bool)
      modifies this
      ensures ok <==> !old(active) && outcomes(old(called))
      ensures ok ==> active && fed == []
      ensures !ok ==> active == old(active)
      ensures Faulted() <==> old(Faulted()) || (!ok && !old(active))
    {
      hide AllGood;
      if active {
        return false;
      }
      ok := Call();
      if ok {
        active, fed := true, [];
      }
    }

    method Update(data: array<Byte>, offset: nat, size: nat) returns (ok: bool)
      requires offset + size <= data.Length
      modifies this
      ensures active == old(active) && (ok <==> active && outcomes(old(called)))
      ensures ok ==> fed == old(fed) + data[offset..offset + size]
      ensures Faulted() <==> old(Faulted()) || (!ok && active)
    {
      hide AllGood;
      if !active {
        return false;
      }
      ok := Call();
      if ok {
        fed := fed + data[offset..offset + size];
      }
    }

    method Finish() returns (ok: bool, digest: ByteString)
      modifies this
      ensures ok <==> old(active) && outcomes(old(called))
      ensures ok ==> digest == Sha256(old(fed))
      ensures !active
      ensures Faulted() <==> old(Faulted()) || (!ok && old(active))
    {
      hide AllGood, Sha256;
      if !active {
        return false, [];
      }
      active := false;
      ok := Call();
      digest := Sha256(fed);
    }

    method Abort()
      modifies this`active
      ensures !active
    {
      active := false;
    }
  }
}
