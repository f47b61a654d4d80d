/** What the receiver's specification makes of the frames sendFile produces. */
module PlanRun {
  import opened Wire
  import opened Fips180
  import opened ReceiverSpec
  import opened Sender
  import Codecs
  import CCodec
  import Filename

  lemma OneMore(job: Job, n: nat)
    requires Startable(job) && n < FrameCount(job)
    ensures Frames(job, n + 1) == Frames(job, n) + [PlanFrame(job, n)]
    ensures IdealRun(Frames(job, n + 1)) == IdealStep(IdealRun(Frames(job, n)), PlanFrame(job, n))
    ensures OkAcks(Frames(job, n + 1)) ==
            OkAcks(Frames(job, n)) +
            [Acknowledgement(PlanFrame(job, n).kind, ACK_OK, Got(IdealRun(Frames(job, n + 1))))]
    ensures |OkAcks(Frames(job, n))| == n
  {
    hide IdealRun, IdealStep, OkAcks, PlanFrame, Startable, FrameCount, Got;
    assert Frames(job, n + 1) == Frames(job, n) + [PlanFrame(job, n)];
    Unroll(Frames(job, n), PlanFrame(job, n));
  }

  /** The FILE_BEGIN frame starts a file exactly when the sanitizer has a name for it. */
  lemma BeginStep(job: Job)
    requires Startable(job)
    ensures IdealStep(WaitFile, PlanFrame(job, 0)) ==
            if Filename.Sanitized(job.name).Ok? then Receiving(Meta(job), []) else Failed
  {
    hide Sha256, Filename.Sanitized, CCodec.FileBeginDecode, MetaPayload;
    Codecs.CDecodesExactlyMetaPayloads(MetaPayload(Meta(job)), Meta(job));
  }

  /** Each chunk of the plan is accepted and takes the receiver to the next offset. */
  lemma ChunkStep(job: Job, k: nat)
    requires Startable(job) && 1 <= k <= ChunkCount(job)
    ensures IdealStep(Receiving(Meta(job), job.file[..Offset(job, k - 1)]), PlanFrame(job, k)) ==
            Receiving(Meta(job), job.file[..Offset(job, k)])
  {
    hide Sha256, Filename.Sanitized, CCodec.FileBeginDecode;
    var a, b := Offset(job, k - 1), Offset(job, k);
    assert a < b;
    assert job.file[..b] == job.file[..a] + job.file[a..b];
  }

  /** The FILE_END frame completes the file exactly when the announced digest is the file's. */
  lemma EndStep(job: Job)
    requires Startable(job)
    ensures IdealStep(Receiving(Meta(job), job.file[..Offset(job, ChunkCount(job))]),
                      PlanFrame(job, ChunkCount(job) + 1)) ==
            if Digest(job) == Sha256(job.file) then Complete(Meta(job), job.file) else Failed
  {
    hide Sha256, Filename.Sanitized, CCodec.FileBeginDecode;
    assert job.file[..Offset(job, ChunkCount(job))] == job.file;
  }

  /** The receiver's state after the first `n` frames of the plan, when storage does not fail. */
  function Expected(job: Job, n: nat): RState
  {
    if n == 0 then WaitFile
    else if !Filename.Sanitized(job.name).Ok? then Failed
    else if n < FrameCount(job) then Receiving(Meta(job), job.file[..Offset(job, n - 1)])
    else if Digest(job) == Sha256(job.file) then Complete(Meta(job), job.file)
    else Failed
  }

  lemma {:induction false} PlanRuns(job: Job, n: nat)
    requires Startable(job) && n <= FrameCount(job)
    ensures IdealRun(Frames(job, n)) == Expected(job, n)
  {
    hide Sha256, Filename.Sanitized, IdealStep, PlanFrame, Startable;
    if n > 0 {
      PlanRuns(job, n - 1);
      OneMore(job, n - 1);
      PlanStep(job, n - 1);
    }
  }

  lemma PlanStep(job: Job, n: nat)
    requires Startable(job) && n < FrameCount(job)
    ensures IdealStep(Expected(job, n), PlanFrame(job, n)) == Expected(job, n + 1)
  {
    hide Sha256, Filename.Sanitized, IdealStep, PlanFrame, Startable;
    if n == 0 {
      BeginStep(job);
      assert job.file[..0] == [];
    } else if !Filename.Sanitized(job.name).Ok? {
      FailedIsFinal(PlanFrame(job, n));
    } else if n <= ChunkCount(job) {
      ChunkStep(job, n);
    } else {
      EndStep(job);
    }
  }

  /** For an acceptable job every frame is accepted, and acknowledged with what sendFile waits for. */
  lemma AcceptableRuns(job: Job, n: nat)
    requires Acceptable(job) && n <= FrameCount(job)
    ensures IdealRun(Frames(job, n)) != Failed
    ensures Open(IdealRun(Frames(job, n))) <==> n < FrameCount(job)
    ensures n > 0 ==> OkAcks(Frames(job, n)) == OkAcks(Frames(job, n - 1)) + [ExpectedAck(job, n - 1)]
  {
    hide Sha256, Filename.Sanitized, IdealStep, PlanFrame, IdealRun, OkAcks;
    PlanRuns(job, n);
    if n > 0 {
      OneMore(job, n - 1);
      assert Got(Expected(job, n)) == Offset(job, n - 1);
    }
  }

  /** Completing is having the whole file, under the announced digest. */
  lemma WholePlan(job: Job)
    requires Startable(job) && IdealRun(Frames(job, FrameCount(job))) != Failed
    ensures IdealRun(Frames(job, FrameCount(job))) == Complete(Meta(job), job.file)
    ensures Digest(job) == Sha256(job.file) && Acceptable(job)
  {
    hide Sha256, Filename.Sanitized, IdealStep, PlanFrame, IdealRun;
    PlanRuns(job, FrameCount(job));
  }
}
