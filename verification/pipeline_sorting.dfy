/**
 * The pipeline sorting queue: a table of jobs keyed by session folder name,
 * served by priority (highest first) and then by the time they were added
 * (earliest first).
 *
 * The table is one `SortingQueue` object whose `rows` field lists the stored
 * records in table order; every table operation is one atomic step on it.
 * The selection query and the job predicates are functions of the rows.
 */
module PipelineSorting {
  import opened Wrappers
  import Utils

  /** Probe letters a new sorting job is created with. */
  const DefaultProbes: string := "ABCDEF"

  /** One stored row of the sorting table; `foldername` is its primary key. */
  datatype Job = Job(
    foldername: string,
    priority: int,
    added: int,
    hostname: string,
    finished: bool,
    probes: string)

  /** Failures surfaced by the table: an unparsable session name, a primary
      key that already exists, or an empty selection on `next`. */
  datatype QueueError = SessionError | IntegrityError | DoesNotExist

  /** What `add` accepts: a folder name, a parsed session or another job. */
  datatype AddArg = Key(name: string) | FromSession(session: Utils.Session) | FromJob(job: Job)

  // ---------------------------------------------------------------------------
  // Job predicates

  /** The `where` clause of the selection: not finished and not claimed by a
      host, so an unfinished job is eligible exactly when it is not started. */
  predicate Eligible(j: Job)
    ensures Eligible(j) ==> !IsStarted(j)
    ensures !j.finished && !IsStarted(j) ==> Eligible(j)
  {
    !j.finished && j.hostname == ""
  }

  /** A job is started while some host holds it and it is not finished. */
  predicate IsStarted(j: Job)
  {
    j.hostname != "" && !j.finished
  }

  /** A started job is never eligible, and a finished job is neither started
      nor eligible. */
  lemma StartedAndFinishedAreNotEligible(j: Job)
    ensures IsStarted(j) ==> !Eligible(j)
    ensures j.finished ==> !IsStarted(j) && !Eligible(j)
    ensures !j.finished ==> (IsStarted(j) <==> !Eligible(j))
  {
  }

  // ---------------------------------------------------------------------------
  // Selection: filter, then order by priority (descending) and added (ascending)

  /** `a` may be served before `b`: higher priority, or equal priority and added no later. */
  predicate RanksBefore(a: Job, b: Job)
  {
    a.priority > b.priority || (a.priority == b.priority && a.added <= b.added)
  }

  predicate Sorted(s: seq<Job>)
  {
    forall i, k :: 0 <= i < k < |s| ==> RanksBefore(s[i], s[k])
  }

  /** The eligible rows, in table order, each as often as it is stored. */
  function Unprocessed(rows: seq<Job>): (r: seq<Job>)
    ensures forall j :: j in r <==> j in rows && Eligible(j)
    ensures forall j :: multiset(r)[j] == (if Eligible(j) then multiset(rows)[j] else 0)
    ensures |r| <= |rows|
  {
    if rows == [] then []
    else
      assert rows == [rows[0]] + rows[1..];
      (if Eligible(rows[0]) then [rows[0]] else []) + Unprocessed(rows[1..])
  }

  /** `x` ranks before every element of `s`. */
  predicate RanksBeforeAll(x: Job, s: seq<Job>)
  {
    forall y :: y in s ==> RanksBefore(x, y)
  }

  /** A sorted sequence stays sorted when an element ranking before all of it
      is put in front. */
  lemma PrependSorted(x: Job, s: seq<Job>)
    requires Sorted(s) && RanksBeforeAll(x, s)
    ensures Sorted([x] + s)
  {
  }

  /** Dropping the head of a sorted sequence leaves it sorted. */
  lemma TailSorted(s: seq<Job>)
    requires Sorted(s) && s != []
    ensures Sorted(s[1..])
  {
  }

  /** What ranks before the head of a sorted sequence ranks before all of it. */
  lemma RanksBeforeHead(j: Job, s: seq<Job>)
    requires Sorted(s) && s != [] && RanksBefore(j, s[0])
    ensures RanksBeforeAll(j, s)
  {
  }

  /** When `j` does not rank before the head of a sorted sequence, the head
      ranks before `j` and the rest of the sequence, in any order. */
  lemma HeadRanksBeforeRest(j: Job, s: seq<Job>, rest: seq<Job>)
    requires Sorted(s) && s != [] && !RanksBefore(j, s[0])
    requires multiset(rest) == multiset(s[1..]) + multiset{j}
    ensures RanksBeforeAll(s[0], rest)
  {
    forall y | y in rest
      ensures RanksBefore(s[0], y)
    {
      assert y in multiset(rest);
      if y != j {
        assert y in multiset(s[1..]);
      }
    }
  }

  /** Inserts `j` into a sorted sequence at the first place it ranks before. */
  function Insert(j: Job, s: seq<Job>): (r: seq<Job>)
    requires Sorted(s)
    ensures Sorted(r)
    ensures multiset(r) == multiset(s) + multiset{j}
  {
    if s == [] then [j]
    else if RanksBefore(j, s[0]) then
      RanksBeforeHead(j, s);
      PrependSorted(j, s);
      [j] + s
    else
      TailSorted(s);
      var rest := Insert(j, s[1..]);
      HeadRanksBeforeRest(j, s, rest);
      PrependSorted(s[0], rest);
      assert s == [s[0]] + s[1..];
      [s[0]] + rest
  }

  /** Orders a sequence by rank, keeping every element. */
  function SortByRank(s: seq<Job>): (r: seq<Job>)
    ensures Sorted(r)
    ensures multiset(r) == multiset(s)
  {
    if s == [] then []
    else
      assert s == [s[0]] + s[1..];
      Insert(s[0], SortByRank(s[1..]))
  }

  /** The unprocessed jobs, ordered as they are to be served. */
  function SelectUnprocessed(rows: seq<Job>): (r: seq<Job>)
    ensures Sorted(r)
    ensures forall j :: j in r <==> j in rows && Eligible(j)
    ensures multiset(r) == multiset(Unprocessed(rows))
  {
    var r := SortByRank(Unprocessed(rows));
    assert forall j :: j in r <==> j in multiset(Unprocessed(rows));
    r
  }

  /** A job stored once is selected at most once, so with unique keys the
      selection lists no job twice. */
  lemma SelectionHasNoDuplicates(rows: seq<Job>, j: Job)
    requires multiset(rows)[j] <= 1
    ensures multiset(SelectUnprocessed(rows))[j] <= 1
  {
  }

  /** The first row of the selection, or `DoesNotExist` when it is empty. */
  function Next(rows: seq<Job>): (r: Result<Job, QueueError>)
    ensures r.Err? <==> forall j :: j in rows ==> !Eligible(j)
    ensures r.Err? ==> r.error == DoesNotExist
    ensures r.Ok? ==> r.value in rows && Eligible(r.value)
    ensures r.Ok? ==> forall j :: j in rows && Eligible(j) ==> RanksBefore(r.value, j)
  {
    var s := SelectUnprocessed(rows);
    if s == [] then Err(DoesNotExist)
    else
      assert s[0] in s;
      Ok(s[0])
  }

  /** Of two eligible jobs, one with strictly higher priority is served
      before the other, whatever their insertion order. */
  lemma HigherPriorityServedFirst(rows: seq<Job>, a: Job, b: Job)
    requires a in rows && b in rows && Eligible(a) && Eligible(b)
    requires a.priority > b.priority
    ensures Next(rows) != Ok(b)
  {
  }

  /** Of two eligible jobs with equal priority, the one added earlier is
      served before the other. */
  lemma EarlierAddedServedFirst(rows: seq<Job>, a: Job, b: Job)
    requires a in rows && b in rows && Eligible(a) && Eligible(b)
    requires a.priority == b.priority && a.added < b.added
    ensures Next(rows) != Ok(b)
  {
  }

  /** A job whose priority beats every other eligible job is served next. */
  lemma TopPriorityJobIsNext(rows: seq<Job>, top: Job)
    requires top in rows && Eligible(top)
    requires forall j :: j in rows && Eligible(j) && j != top ==> j.priority < top.priority
    ensures Next(rows) == Ok(top)
  {
  }

  // ---------------------------------------------------------------------------
  // Rows created by `add`

  /** A new row: the given key, priority and time, with no host, not
      finished and the default probes, so it is queued for selection. */
  function NewRow(key: string, priority: int, now: int): (j: Job)
    ensures j.foldername == key && j.priority == priority && j.added == now
    ensures j.probes == DefaultProbes
    ensures Eligible(j) && !IsStarted(j)
  {
    Job(key, priority, now, "", false, DefaultProbes)
  }

  /** The row `add` would create, before the primary key is checked: a folder
      name or another job's folder name goes through the session parser (whose
      failure propagates), and the row takes the other job's priority or the
      default 0. */
  function Created(arg: AddArg, parse: Utils.SessionParser, now: int): (r: Result<Job, QueueError>)
    ensures r.Err? <==> !arg.FromSession? && parse(Utils.Raw(if arg.Key? then arg.name else arg.job.foldername)).None?
    ensures r.Err? ==> r.error == SessionError
    ensures arg.FromSession? ==> r.Ok? && r.value.foldername == arg.session.folder
    ensures r.Ok? && !arg.FromSession? ==>
              r.value.foldername == parse(Utils.Raw(if arg.Key? then arg.name else arg.job.foldername)).value.folder
    ensures r.Ok? ==> r.value.priority == (if arg.FromJob? then arg.job.priority else 0)
    ensures r.Ok? ==> && r.value.added == now
                      && r.value.hostname == ""
                      && !r.value.finished
                      && r.value.probes == DefaultProbes
  {
    match arg
    case Key(name) =>
      (match parse(Utils.Raw(name))
       case Some(s) => Ok(NewRow(s.folder, 0, now))
       case None => Err(SessionError))
    case FromSession(s) => Ok(NewRow(s.folder, 0, now))
    case FromJob(j) =>
      (match parse(Utils.Raw(j.foldername))
       case Some(s) => Ok(NewRow(s.folder, j.priority, now))
       case None => Err(SessionError))
  }

  /** A freshly created row is eligible and not started. */
  lemma CreatedRowIsQueued(arg: AddArg, parse: Utils.SessionParser, now: int)
    requires Created(arg, parse, now).Ok?
    ensures Eligible(Created(arg, parse, now).value)
    ensures !IsStarted(Created(arg, parse, now).value)
  {
  }

  /** With nothing else eligible, the row just added is the next job. */
  lemma AddedRowIsNextWhenAlone(rows: seq<Job>, j: Job)
    requires forall x :: x in rows ==> !Eligible(x)
    requires Eligible(j)
    ensures Next(rows + [j]) == Ok(j)
  {
  }

  /** Two default jobs created one after the other are served in creation
      order, and once the first is finished the second is served. */
  lemma CreatedInOrderServedInOrder(k1: string, k2: string, t1: int, t2: int)
    requires k1 != k2 && t1 < t2
    ensures var rows := [NewRow(k1, 0, t1), NewRow(k2, 0, t2)];
            && Next(rows) == Ok(rows[0])
            && Next(Saved(rows, rows[0].(finished := true))) == Ok(rows[1])
  {
    var rows := [NewRow(k1, 0, t1), NewRow(k2, 0, t2)];
    assert Saved(rows, rows[0].(finished := true)) == [rows[0].(finished := true), rows[1]];
  }

  // ---------------------------------------------------------------------------
  // Saving an instance

  predicate HasKey(rows: seq<Job>, key: string)
  {
    exists j :: j in rows && j.foldername == key
  }

  predicate KeysUnique(rows: seq<Job>)
  {
    forall i, k :: 0 <= i < k < |rows| ==> rows[i].foldername != rows[k].foldername
  }

  /** Saving an instance overwrites every stored field of the row that has
      the instance's primary key; with no such row nothing changes. */
  function Saved(rows: seq<Job>, j: Job): (r: seq<Job>)
    ensures |r| == |rows|
    ensures forall i :: 0 <= i < |rows| && rows[i].foldername == j.foldername ==> r[i] == j
    ensures forall i :: 0 <= i < |rows| && rows[i].foldername != j.foldername ==> r[i] == rows[i]
  {
    if rows == [] then []
    else [if rows[0].foldername == j.foldername then j else rows[0]] + Saved(rows[1..], j)
  }

  /** Saving never changes which keys are stored, so it keeps them unique. */
  lemma SavedKeepsKeys(rows: seq<Job>, j: Job)
    ensures forall i :: 0 <= i < |rows| ==> Saved(rows, j)[i].foldername == rows[i].foldername
    ensures KeysUnique(rows) ==> KeysUnique(Saved(rows, j))
  {
  }

  /** Saving an up-to-date instance with a changed field replaces that one row. */
  lemma SavedReplacesOneRow(rows: seq<Job>, i: int, j: Job)
    requires KeysUnique(rows)
    requires 0 <= i < |rows| && j.foldername == rows[i].foldername
    ensures Saved(rows, j) == rows[i := j]
  {
  }

  /** A job saved as claimed by a host, or as finished, is never selected again. */
  lemma SavedIneligibleLeavesSelection(rows: seq<Job>, j: Job)
    requires !Eligible(j)
    ensures forall x :: x in SelectUnprocessed(Saved(rows, j)) ==> x.foldername != j.foldername
    ensures Next(Saved(rows, j)).Ok? ==> Next(Saved(rows, j)).value.foldername != j.foldername
  {
  }

  /** A job saved as unclaimed and unfinished is selectable again. */
  lemma SavedEligibleIsSelectable(rows: seq<Job>, j: Job)
    requires Eligible(j) && HasKey(rows, j.foldername)
    ensures j in SelectUnprocessed(Saved(rows, j))
    ensures Next(Saved(rows, j)).Ok?
  {
  }

  /** Queuing undoes starting: with unique keys, claiming a stored eligible
      job for a host and then saving it with an empty hostname gives back the
      table as it was. */
  lemma QueuedUndoesStarted(rows: seq<Job>, i: int, hostname: string)
    requires KeysUnique(rows) && 0 <= i < |rows| && Eligible(rows[i])
    ensures var started := rows[i].(hostname := hostname);
            Saved(Saved(rows, started), started.(hostname := "")) == rows
  {
    var started := rows[i].(hostname := hostname);
    SavedReplacesOneRow(rows, i, started);
    SavedKeepsKeys(rows, started);
    SavedReplacesOneRow(Saved(rows, started), i, started.(hostname := ""));
  }

  /** Finishing is irreversible only for up-to-date instances: saving an
      instance read before the job was finished, for example by claiming it
      for a host, writes `finished = false` back and makes the job selectable
      again when the host is empty. */
  lemma StaleInstanceUndoesFinish(rows: seq<Job>, i: int, stale: Job, hostname: string)
    requires 0 <= i < |rows| && rows[i].finished
    requires stale.foldername == rows[i].foldername && !stale.finished
    ensures !Saved(rows, stale.(hostname := hostname))[i].finished
    ensures hostname == "" ==> stale.(hostname := hostname) in SelectUnprocessed(Saved(rows, stale.(hostname := hostname)))
  {
  }

  // ---------------------------------------------------------------------------
  // The table

  class SortingQueue {
    /** The stored rows, in table order. */
    var rows: seq<Job>

    /** `foldername` is the primary key: no two rows share it. */
    ghost predicate Valid()
      reads this
    {
      KeysUnique(rows)
    }

    /** An empty table. */
    constructor ()
      ensures Valid() && rows == []
    {
      rows := [];
    }

    /** Inserts the row `Created` describes. A parser failure or a key that
        is already stored fails, and the table is left as it was. */
    method Add(arg: AddArg, parse: Utils.SessionParser, now: int) returns (r: Result<Job, QueueError>)
      requires Valid()
      modifies this
      ensures Valid()
      ensures Created(arg, parse, now).Err? ==> r == Created(arg, parse, now) && rows == old(rows)
      ensures Created(arg, parse, now).Ok? && HasKey(old(rows), Created(arg, parse, now).value.foldername) ==>
                r == Err(IntegrityError) && rows == old(rows)
      ensures Created(arg, parse, now).Ok? && !HasKey(old(rows), Created(arg, parse, now).value.foldername) ==>
                r == Created(arg, parse, now) && rows == old(rows) + [r.value]
    {
      r := Created(arg, parse, now);
      if r.Err? {
        return;
      }
      if HasKey(rows, r.value.foldername) {
        r := Err(IntegrityError);
        return;
      }
      rows := rows + [r.value];
      forall i, k | 0 <= i < k < |rows|
        ensures rows[i].foldername != rows[k].foldername
      {
        if k == |rows| - 1 {
          assert rows[i] in old(rows);
        }
      }
    }

    /** Marks the instance `job` as processed on `hostname` and saves it;
        returns the updated instance. */
    method SetStarted(job: Job, hostname: string) returns (saved: Job)
      requires Valid()
      modifies this
      ensures Valid()
      ensures saved == job.(hostname := hostname)
      ensures rows == Saved(old(rows), saved)
      ensures forall i :: 0 <= i < |old(rows)| && old(rows)[i] == job ==> rows == old(rows)[i := saved]
      ensures IsStarted(saved) <==> hostname != "" && !job.finished
      ensures hostname != "" && Next(rows).Ok? ==> Next(rows).value.foldername != job.foldername
    {
      saved := job.(hostname := hostname);
      Save(saved);
      if hostname != "" {
        SavedIneligibleLeavesSelection(old(rows), saved);
      }
    }

    /** Marks the instance `job` as finished and saves it; returns the
        updated instance. */
    method SetFinished(job: Job) returns (saved: Job)
      requires Valid()
      modifies this
      ensures Valid()
      ensures saved == job.(finished := true)
      ensures rows == Saved(old(rows), saved)
      ensures forall i :: 0 <= i < |old(rows)| && old(rows)[i] == job ==> rows == old(rows)[i := saved]
      ensures !IsStarted(saved)
      ensures Next(rows).Ok? ==> Next(rows).value.foldername != job.foldername
    {
      saved := job.(finished := true);
      Save(saved);
      SavedIneligibleLeavesSelection(old(rows), saved);
    }

    /** Releases the instance `job` back to the queue by clearing its host,
        undoing `SetStarted`; returns the updated instance. */
    method SetQueued(job: Job) returns (saved: Job)
      requires Valid()
      modifies this
      ensures Valid()
      ensures saved == job.(hostname := "")
      ensures rows == Saved(old(rows), saved)
      ensures forall i :: 0 <= i < |old(rows)| && old(rows)[i] == job ==> rows == old(rows)[i := saved]
      ensures !IsStarted(saved)
      ensures !job.finished && HasKey(old(rows), job.foldername) ==> saved in SelectUnprocessed(rows)
      ensures job.finished && Next(rows).Ok? ==> Next(rows).value.foldername != job.foldername
    {
      saved := job.(hostname := "");
      Save(saved);
      if !job.finished && HasKey(old(rows), job.foldername) {
        SavedEligibleIsSelectable(old(rows), saved);
      } else if job.finished {
        SavedIneligibleLeavesSelection(old(rows), saved);
      }
    }

    /** Writes every field of `j` to the row with its primary key. */
    method Save(j: Job)
      requires Valid()
      modifies this
      ensures Valid()
      ensures rows == Saved(old(rows), j)
      ensures forall i :: 0 <= i < |old(rows)| && old(rows)[i].foldername == j.foldername ==> rows == old(rows)[i := j]
    {
      SavedKeepsKeys(rows, j);
      forall i | 0 <= i < |rows| && rows[i].foldername == j.foldername
        ensures Saved(rows, j) == rows[i := j]
      {
        SavedReplacesOneRow(rows, i, j);
      }
      rows := Saved(rows, j);
    }
  }
}
