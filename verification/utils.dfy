/**
 * Input normalisation shared by the queues: turning a folder name, a parsed
 * session or an existing job into a session or a job record.
 *
 * Parsing a session folder name belongs to a foreign library; here it is an
 * arbitrary partial function `parse` handed in by the caller, so every
 * property below holds whatever that parser accepts.
 */
module Utils {
  import opened Wrappers

  /** A parsed session. Only its folder name is used by the queues. */
  datatype Session = Session(folder: string)

  /** The record built by `get_job`: only `session` is required. */
  datatype JobDataclass = JobDataclass(
    session: string,
    added: int,
    priority: int,
    started: Option<int>,
    hostname: Option<string>,
    finished: Option<int>)

  /** The named-tuple job: `session` and `added` are required fields. */
  datatype JobTuple = JobTuple(
    session: string,
    added: int,
    started: Option<int>,
    hostname: Option<string>,
    finished: Option<int>)
  {
    /** A class attribute of the tuple type rather than a field, so it is the same for every tuple. */
    const priority: int := 0
  }

  /** The job-like values: anything that already carries a priority. */
  datatype Job = Dataclass(record: JobDataclass) | Tuple(tuple: JobTuple)
  {
    function Priority(): int
    {
      match this
      case Dataclass(d) => d.priority
      case Tuple(t) => t.priority
    }
  }

  /** What `get_session` and `get_job` accept: a raw argument (a folder name or
      path, as text), a session, or a job-like value. */
  datatype SessionOrJob = Raw(text: string) | FromSession(session: Session) | FromJob(job: Job)

  /** The `TypeError` raised when the argument cannot be parsed as a session. */
  datatype Error = TypeError(argument: SessionOrJob)

  /** The session parser of the foreign library: `None` stands for its `SessionError`. */
  type SessionParser = SessionOrJob -> Option<Session>

  /** A session is passed through; anything else goes to the parser, and a
      parser failure becomes a `TypeError` naming the argument. */
  function GetSession(x: SessionOrJob, parse: SessionParser): (r: Result<Session, Error>)
    ensures x.FromSession? ==> r == Ok(x.session)
    ensures !x.FromSession? ==> (r.Err? <==> parse(x).None?)
    ensures !x.FromSession? && r.Ok? ==> r.value == parse(x).value
    ensures r.Err? ==> r.error == TypeError(x)
  {
    if x.FromSession? then Ok(x.session)
    else
      match parse(x)
      case Some(s) => Ok(s)
      case None => Err(TypeError(x))
  }

  /** A job-like value is passed through unchanged; otherwise a fresh record is
      built with the session's folder name and every other field at its
      default, `now` standing for the clock read by `time.time`. */
  function GetJob(x: SessionOrJob, parse: SessionParser, now: int): (r: Result<Job, Error>)
    ensures x.FromJob? ==> r == Ok(x.job)
    ensures !x.FromJob? ==> (r.Err? <==> GetSession(x, parse).Err?)
    ensures r.Err? ==> r.error == TypeError(x)
    ensures !x.FromJob? && r.Ok? ==>
              && r.value.Dataclass?
              && r.value.record.session == GetSession(x, parse).value.folder
              && r.value.Priority() == 0
  {
    if x.FromJob? then Ok(x.job)
    else
      match GetSession(x, parse)
      case Ok(s) => Ok(Dataclass(JobDataclass(s.folder, now, 0, None, None, None)))
      case Err(e) => Err(e)
  }

  /** The record built for a session has the dataclass defaults: priority 0
      and no `started`, `hostname` or `finished` value. */
  lemma GetJobUsesDataclassDefaults(x: SessionOrJob, parse: SessionParser, now: int)
    requires !x.FromJob?
    requires GetSession(x, parse).Ok?
    ensures GetJob(x, parse, now)
            == Ok(Dataclass(JobDataclass(GetSession(x, parse).value.folder, now, 0, None, None, None)))
  {
  }

  /** `get_job` is idempotent: feeding its result back in returns it unchanged. */
  lemma GetJobIdempotent(x: SessionOrJob, parse: SessionParser, now: int, later: int)
    requires GetJob(x, parse, now).Ok?
    ensures GetJob(FromJob(GetJob(x, parse, now).value), parse, later) == GetJob(x, parse, now)
  {
  }

  /** `get_session` is idempotent: a session it produced is passed through. */
  lemma GetSessionIdempotent(x: SessionOrJob, parse: SessionParser)
    requires GetSession(x, parse).Ok?
    ensures GetSession(FromSession(GetSession(x, parse).value), parse) == GetSession(x, parse)
  {
  }

  /** Every named-tuple job, whatever its fields, reports priority 0, and
      `get_job` keeps it so. */
  lemma JobTupleHasDefaultPriority(t: JobTuple, parse: SessionParser, now: int)
    ensures Tuple(t).Priority() == 0
    ensures GetJob(FromJob(Tuple(t)), parse, now).value.Priority() == 0
  {
  }
}
