/** `LocalStorage`: one `job.json` per job under `<base>/jobs/<id>/`. The directory
    tree is a map from job id to the record last written for it; a failed write or
    read is a parameter (`fault`) carrying the message of the raised error. */
module Storage {
  import opened Wrappers
  import opened Jobs

  class LocalStorage {
    /** The resolved data directory. */
    const base: string
    /** The `job.json` files on disk, by the job id their directory is named after. */
    var jobs: map<string, JobRecord>

    /** `save_job` files a record under its own id, so every stored record carries
        the id it is stored under. */
    ghost predicate Valid()
      reads this
    {
      forall id :: id in jobs ==> jobs[id].id == id
    }

    constructor (dataDir: string)
      ensures base == dataDir && jobs == map[] && Valid()
    {
      base := dataDir;
      jobs := map[];
    }

    /** `job_dir`: `<base>/jobs/<id>`. */
    function JobDir(jobId: string): string {
      base + "/jobs/" + jobId
    }

    /** Distinct jobs never share a directory. */
    lemma JobDirInjective(a: string, b: string)
      ensures JobDir(a) == JobDir(b) <==> a == b
    {
      if JobDir(a) == JobDir(b) {
        var n := |base + "/jobs/"|;
        assert a == JobDir(a)[n..];
        assert b == JobDir(b)[n..];
      }
    }

    /** `save_job`: overwrite `job.json` in the record's own directory. With a
        `fault` the write raises that message and nothing is stored. */
    method SaveJob(job: JobRecord, fault: Option<string>) returns (err: Option<string>)
      requires Valid()
      modifies this
      ensures Valid()
      ensures err == fault
      ensures jobs == if fault.None? then old(jobs)[job.id := job] else old(jobs)
    {
      err := fault;
      if fault.None? {
        jobs := jobs[job.id := job];
      }
    }

    /** `load_job`: "job not found" when there is no `job.json`; otherwise the stored
        record, unless reading it raises `fault`. */
    method LoadJob(jobId: string, fault: Option<string>) returns (r: Result<JobRecord, string>)
      requires Valid()
      ensures jobId !in jobs ==> r == Err("job not found")
      ensures jobId in jobs && fault.Some? ==> r == Err(fault.value)
      ensures jobId in jobs && fault.None? ==> r == Ok(jobs[jobId]) && r.value.id == jobId
    {
      if jobId !in jobs {
        r := Err("job not found");
      } else if fault.Some? {
        r := Err(fault.value);
      } else {
        r := Ok(jobs[jobId]);
      }
    }
  }

  /** A record saved without a fault is what a later load of its id returns, and no
      other job's record changes. */
  method SaveThenLoad(s: LocalStorage, job: JobRecord, other: string) returns (r: Result<JobRecord, string>)
    requires s.Valid() && other != job.id
    modifies s
    ensures r == Ok(job)
    ensures other in s.jobs <==> other in old(s.jobs)
    ensures other in s.jobs ==> s.jobs[other] == old(s.jobs[other])
  {
    var _ := s.SaveJob(job, None);
    r := s.LoadJob(job.id, None);
  }
}
