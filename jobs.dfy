/**
 * The module-level `jobs` dictionary and the code that reads and writes it:
 * the background worker `process_audio_background`, the single-delivery
 * status endpoint `get_job_status` and the `active_jobs` count of
 * `health_check`. The table is modelled sequentially, one call at a time.
 */
module Jobs {
  import opened Wrappers
  import opened Storage
  import opened Naming
  import opened Silence
  import opened Exporter

  type JobId = string

  /** A value of `datetime.now()`; only compared for equality here. */
  type Timestamp = nat

  datatype Status = Pending | Processing | Completed | Failed {
    /** The statuses `health_check` counts as active. */
    predicate IsActive() {
      this == Pending || this == Processing
    }
  }

  /** One entry of `jobs`; keys the source may not have set yet are `None`. */
  datatype JobRecord = JobRecord(
    status: Status,
    filename: string,
    inputPath: Path,
    createdAt: Timestamp,
    completedAt: Option<Timestamp>,
    outputPath: Option<Path>,
    error: Option<string>
  )

  const JOB_NOT_FOUND := "Job not found"
  const PROCESSED_FILE_NOT_FOUND := "Processed file not found"
  const UNKNOWN_ERROR := "Unknown error"

  /** What `GET /job/<job_id>` answers. */
  datatype JobReply =
    | NotFound                    // 404 {'error': 'Job not found'}
    | Mp3Attachment               // 200, audio/mpeg, filename processed_audio.mp3
    | ErrorReply(message: string) // 500 {'error': message}
    | InProgress(jobId: JobId, status: Status, filename: string, createdAt: Timestamp)
    | UnhandledException          // an exception escaped the handler: Flask answers 500
  {
    function Code(): nat {
      match this
      case NotFound => 404
      case Mp3Attachment => 200
      case InProgress(_, _, _, _) => 200
      case ErrorReply(_) => 500
      case UnhandledException => 500
    }
  }

  /** What `GET /health` answers. */
  datatype Health = Health(status: string, timestamp: Timestamp, activeJobs: nat)

  // ---------------------------------------------------------------------------
  // active_jobs

  /** `len([j for j in jobs.values() if j['status'] in ['pending', 'processing']])`. */
  function ActiveCount(jobs: map<JobId, JobRecord>): nat {
    |set id | id in jobs && jobs[id].status.IsActive()|
  }

  /** There are never more active jobs than jobs. */
  lemma ActiveCountBound(jobs: map<JobId, JobRecord>)
    ensures ActiveCount(jobs) <= |jobs|
  {
    var active := set id | id in jobs && jobs[id].status.IsActive();
    assert active <= jobs.Keys;
    SubsetCardinality(active, jobs.Keys);
  }

  lemma {:induction false} SubsetCardinality<T>(a: set<T>, b: set<T>)
    requires a <= b
    ensures |a| <= |b|
    decreases b
  {
    if a != {} {
      var x :| x in a;
      SubsetCardinality(a - {x}, b - {x});
    }
  }

  /** The count is zero exactly when no job is pending or processing. */
  lemma ActiveCountZero(jobs: map<JobId, JobRecord>)
    ensures ActiveCount(jobs) == 0 <==> forall id :: id in jobs ==> !jobs[id].status.IsActive()
  {
    var active := set id | id in jobs && jobs[id].status.IsActive();
    if exists id :: id in jobs && jobs[id].status.IsActive() {
      var id :| id in jobs && jobs[id].status.IsActive();
      assert id in active;
    }
  }

  /**
   * Replacing one record changes the count by what the old and the new record
   * contribute, and by nothing else.
   */
  lemma ActiveCountUpdate(jobs: map<JobId, JobRecord>, id: JobId, r: JobRecord)
    requires id in jobs
    ensures ActiveCount(jobs[id := r])
         == ActiveCount(jobs) - (if jobs[id].status.IsActive() then 1 else 0)
                              + (if r.status.IsActive() then 1 else 0)
  {
    var before := set k | k in jobs && jobs[k].status.IsActive();
    var updated := jobs[id := r];
    var after := set k | k in updated && updated[k].status.IsActive();
    var others := before - {id};
    assert after - {id} == others;
    if jobs[id].status.IsActive() {
      assert before == others + {id};
    } else {
      assert before == others;
    }
    if r.status.IsActive() {
      assert after == others + {id};
    } else {
      assert after == others;
    }
  }

  /** Removing a finished record leaves the count as it is. */
  lemma ActiveCountRemoveFinished(jobs: map<JobId, JobRecord>, id: JobId)
    requires id in jobs && !jobs[id].status.IsActive()
    ensures ActiveCount(jobs - {id}) == ActiveCount(jobs)
  {
    var before := set k | k in jobs && jobs[k].status.IsActive();
    var after := set k | k in jobs - {id} && (jobs - {id})[k].status.IsActive();
    assert after == before;
  }

  /** `if os.path.exists(p): os.unlink(p)`. */
  function RemoveIfExists(files: Files, p: Path): (files': Files)
    ensures p !in files'
    ensures forall q :: q != p ==> (q in files' <==> q in files)
  {
    if p in files then files - {p} else files
  }

  /** The worker's two guarded unlinks remove exactly the two paths. */
  lemma RemoveBoth(files: Files, a: Path, b: Path)
    ensures RemoveIfExists(RemoveIfExists(files, a), b) == files - {a, b}
  {
  }

  // ---------------------------------------------------------------------------
  // The table

  class JobTable {
    var jobs: map<JobId, JobRecord>

    /** `jobs = {}` at import time. */
    constructor()
      ensures jobs == map[]
    {
      jobs := map[];
    }

    /** The worker's first step: `jobs[job_id]['status'] = 'processing'`. */
    method Start(id: JobId)
      requires id in jobs
      modifies this
      ensures jobs == old(jobs)[id := old(jobs)[id].(status := Processing)]
      ensures ActiveCount(jobs) == ActiveCount(old(jobs)) + (if old(jobs)[id].status.IsActive() then 0 else 1)
    {
      ActiveCountUpdate(jobs, id, jobs[id].(status := Processing));
      jobs := jobs[id := jobs[id].(status := Processing)];
    }

    /**
     * The rest of the worker: cut silence, export the MP3 under the size
     * limit, then record `completed` with the output path, or `failed` with
     * the error and remove the input and output files. The output path that
     * is removed is the one the variable holds when the exception is raised:
     * the original name if loading failed, the MP3 name if exporting failed.
     */
    method Finish(
      id: JobId,
      inputPath: Path,
      outputPath: Path,
      files: Files,
      load: Path -> Result<Audio, string>,
      split: (Audio, SilenceParams) -> seq<Audio>,
      encode: (Audio, nat) -> Export,
      now: Timestamp
    ) returns (files': Files)
      requires id in jobs
      modifies this
      ensures jobs.Keys == old(jobs).Keys
      ensures forall k :: k in old(jobs) && k != id ==> jobs[k] == old(jobs)[k]
      ensures jobs[id].status == Completed || jobs[id].status == Failed
      ensures jobs[id].completedAt == Some(now)
      ensures jobs[id].status == Completed ==> jobs[id].outputPath == Some(Mp3Path(outputPath))
      ensures jobs[id].status == Failed ==> jobs[id].error.Some?
      ensures load(inputPath).Failure? ==>
                && jobs[id] == old(jobs)[id].(status := Failed, error := Some(load(inputPath).error), completedAt := Some(now))
                && files' == files - {inputPath, outputPath}
      ensures load(inputPath).Success? ==>
                var audio := load(inputPath).value;
                var run := SizeLimitedExport(Reassembled(audio, split(audio, DEFAULT_PARAMS)),
                                             Mp3Path(outputPath), MAX_FILE_SIZE, files, encode);
                && (run.result.Success? ==>
                      && jobs[id] == old(jobs)[id].(status := Completed, outputPath := Some(Mp3Path(outputPath)),
                                                    completedAt := Some(now))
                      && files' == run.files)
                && (run.result.Failure? ==>
                      && jobs[id] == old(jobs)[id].(status := Failed, error := Some(COMPRESSION_ERROR),
                                                    completedAt := Some(now))
                      && files' == run.files - {inputPath, Mp3Path(outputPath)})
      ensures ActiveCount(jobs) == ActiveCount(old(jobs)) - (if old(jobs)[id].status.IsActive() then 1 else 0)
    {
      var processed := CutSilence(inputPath, DEFAULT_PARAMS, load, split);
      if processed.Failure? {
        MarkFailed(id, processed.error, now);
        files' := RemoveIfExists(RemoveIfExists(files, inputPath), outputPath);
        RemoveBoth(files, inputPath, outputPath);
        return;
      }
      var mp3Path := Mp3Path(outputPath);
      var result, exported, attempts := ExportMp3WithSizeLimit(processed.value, mp3Path, MAX_FILE_SIZE, files, encode);
      if result.Success? {
        MarkCompleted(id, mp3Path, now);
        files' := exported;
      } else {
        MarkFailed(id, result.error, now);
        files' := RemoveIfExists(RemoveIfExists(exported, inputPath), mp3Path);
        RemoveBoth(exported, inputPath, mp3Path);
      }
    }

    /** Lines 138-140: the job is `completed`, with its output path and completion time. */
    method MarkCompleted(id: JobId, outputPath: Path, now: Timestamp)
      requires id in jobs
      modifies this
      ensures jobs == old(jobs)[id := old(jobs)[id].(status := Completed, outputPath := Some(outputPath),
                                                     completedAt := Some(now))]
      ensures ActiveCount(jobs) == ActiveCount(old(jobs)) - (if old(jobs)[id].status.IsActive() then 1 else 0)
    {
      var done := jobs[id].(status := Completed, outputPath := Some(outputPath), completedAt := Some(now));
      ActiveCountUpdate(jobs, id, done);
      jobs := jobs[id := done];
    }

    /** Lines 145-147: the job is `failed`, with the error message and completion time. */
    method MarkFailed(id: JobId, error: string, now: Timestamp)
      requires id in jobs
      modifies this
      ensures jobs == old(jobs)[id := old(jobs)[id].(status := Failed, error := Some(error), completedAt := Some(now))]
      ensures ActiveCount(jobs) == ActiveCount(old(jobs)) - (if old(jobs)[id].status.IsActive() then 1 else 0)
    {
      var failed := jobs[id].(status := Failed, error := Some(error), completedAt := Some(now));
      ActiveCountUpdate(jobs, id, failed);
      jobs := jobs[id := failed];
    }

    /**
     * `process_audio_background(job_id, input_path, output_path)`: the job is
     * marked `processing`, then ends in exactly one of the two terminal states.
     */
    method ProcessAudioBackground(
      id: JobId,
      inputPath: Path,
      outputPath: Path,
      files: Files,
      load: Path -> Result<Audio, string>,
      split: (Audio, SilenceParams) -> seq<Audio>,
      encode: (Audio, nat) -> Export,
      now: Timestamp
    ) returns (files': Files)
      requires id in jobs
      modifies this
      ensures jobs.Keys == old(jobs).Keys
      ensures forall k :: k in old(jobs) && k != id ==> jobs[k] == old(jobs)[k]
      ensures jobs[id].status == Completed || jobs[id].status == Failed
      ensures jobs[id].completedAt == Some(now)
      ensures jobs[id].status == Completed ==>
                jobs[id] == old(jobs)[id].(status := Completed, outputPath := Some(Mp3Path(outputPath)),
                                           completedAt := Some(now))
      ensures jobs[id].status == Failed ==>
                exists e :: jobs[id] == old(jobs)[id].(status := Failed, error := Some(e), completedAt := Some(now))
      ensures jobs[id].status == Failed ==> inputPath !in files'
      ensures load(inputPath).Failure? ==>
                && jobs[id] == old(jobs)[id].(status := Failed, error := Some(load(inputPath).error), completedAt := Some(now))
                && files' == files - {inputPath, outputPath}
      ensures load(inputPath).Success? ==>
                var audio := load(inputPath).value;
                var run := SizeLimitedExport(Reassembled(audio, split(audio, DEFAULT_PARAMS)),
                                             Mp3Path(outputPath), MAX_FILE_SIZE, files, encode);
                && (run.result.Success? ==>
                      && jobs[id] == old(jobs)[id].(status := Completed, outputPath := Some(Mp3Path(outputPath)),
                                                    completedAt := Some(now))
                      && files' == run.files)
                && (run.result.Failure? ==>
                      && jobs[id] == old(jobs)[id].(status := Failed, error := Some(COMPRESSION_ERROR),
                                                    completedAt := Some(now))
                      && files' == run.files - {inputPath, Mp3Path(outputPath)})
      ensures ActiveCount(jobs) == ActiveCount(old(jobs)) - (if old(jobs)[id].status.IsActive() then 1 else 0)
    {
      Start(id);
      files' := Finish(id, inputPath, outputPath, files, load, split, encode, now);
    }

    /**
     * `get_job_status(job_id)`. A finished job is delivered once: its record
     * is deleted when the MP3 is sent or the failure reported. An exception
     * the handler does not catch leaves the state as it was when raised.
     */
    method GetJobStatus(id: JobId, files: Files) returns (reply: JobReply, files': Files)
      modifies this
      ensures id !in old(jobs) ==> reply == NotFound && jobs == old(jobs) && files' == files
      ensures id in old(jobs) && old(jobs)[id].status.IsActive() ==>
                var job := old(jobs)[id];
                && reply == InProgress(id, job.status, job.filename, job.createdAt)
                && jobs == old(jobs) && files' == files
      ensures id in old(jobs) && old(jobs)[id].status == Failed ==>
                var job := old(jobs)[id];
                && reply == ErrorReply(job.error.GetOr(UNKNOWN_ERROR))
                && jobs == old(jobs) - {id} && files' == files - {job.inputPath}
      ensures id in old(jobs) && old(jobs)[id].status == Completed ==>
                var job := old(jobs)[id];
                if job.outputPath.None? then
                  reply == UnhandledException && jobs == old(jobs) && files' == files
                else if job.outputPath.value !in files then
                  reply == ErrorReply(PROCESSED_FILE_NOT_FOUND) && jobs == old(jobs) && files' == files
                else if job.inputPath !in files then
                  reply == UnhandledException && jobs == old(jobs) && files' == files
                else if job.inputPath == job.outputPath.value then
                  reply == UnhandledException && jobs == old(jobs) && files' == files - {job.inputPath}
                else
                  && reply == Mp3Attachment && jobs == old(jobs) - {id}
                  && files' == files - {job.inputPath, job.outputPath.value}
      ensures ActiveCount(jobs) == ActiveCount(old(jobs))
    {
      files' := files;
      if id !in jobs {
        return NotFound, files';
      }
      var job := jobs[id];
      if job.status == Completed {
        if job.outputPath.None? {
          // job['output_path'] raises KeyError
          return UnhandledException, files';
        }
        var outputPath := job.outputPath.value;
        if outputPath in files' {
          if job.inputPath !in files' {
            // os.unlink(job['input_path']) raises FileNotFoundError
            return UnhandledException, files';
          }
          files' := files' - {job.inputPath};
          if outputPath !in files' {
            return UnhandledException, files';
          }
          files' := files' - {outputPath};
          ActiveCountRemoveFinished(jobs, id);
          jobs := jobs - {id};
          return Mp3Attachment, files';
        } else {
          return ErrorReply(PROCESSED_FILE_NOT_FOUND), files';
        }
      } else if job.status == Failed {
        var errorMessage := job.error.GetOr(UNKNOWN_ERROR);
        if job.inputPath in files' {
          files' := files' - {job.inputPath};
        }
        ActiveCountRemoveFinished(jobs, id);
        jobs := jobs - {id};
        return ErrorReply(errorMessage), files';
      } else {
        return InProgress(id, job.status, job.filename, job.createdAt), files';
      }
    }

    /** `health_check()`. */
    function HealthCheck(now: Timestamp): (h: Health)
      reads this
      ensures h.status == "healthy" && h.timestamp == now
      ensures h.activeJobs <= |jobs|
      ensures h.activeJobs == 0 <==> forall id :: id in jobs ==> !jobs[id].status.IsActive()
    {
      ActiveCountBound(jobs);
      ActiveCountZero(jobs);
      Health("healthy", now, ActiveCount(jobs))
    }
  }

  /**
   * Two status queries in a row: a delivered or failed job is gone on the
   * second query, a pending or processing job answers the same both times.
   */
  method PollTwice(t: JobTable, id: JobId, files: Files) returns (first: JobReply, second: JobReply)
    modifies t
    ensures first.Mp3Attachment? ==> second == NotFound
    ensures id in old(t.jobs) && old(t.jobs)[id].status == Failed ==> second == NotFound
    ensures id in old(t.jobs) && old(t.jobs)[id].status.IsActive() ==> second == first
  {
    var afterFirst, afterSecond;
    first, afterFirst := t.GetJobStatus(id, files);
    second, afterSecond := t.GetJobStatus(id, afterFirst);
  }
}
