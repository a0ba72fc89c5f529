/** Running one queued task: the chain of jobs, panics, and retries. */
module QueueTask {
  import opened Machine
  import opened Sequences

  /** What handling a job comes to. */
  datatype Outcome = Success | Failed(why: string) | Panicked(why: string)

  datatype Failure = JobFailed(job: nat, why: string) | JobPanicked(why: string)

  /** The chain up to and including its first job that does not succeed. */
  predicate StopsAt(chain: seq<Outcome>, handled: nat) {
    && handled <= |chain|
    && (forall i :: 0 <= i < handled - 1 ==> chain[i].Success?)
    && (handled < |chain| ==> handled > 0 && !chain[handled - 1].Success?)
  }

  predicate AllSucceed(chain: seq<Outcome>) {
    forall i :: 0 <= i < |chain| ==> chain[i].Success?
  }

  function FailureOf(chain: seq<Outcome>, handled: nat): Option<Failure>
    requires handled <= |chain|
  {
    if handled == 0 then None
    else
      match chain[handled - 1]
      case Success => None
      case Failed(why) => Some(JobFailed(handled - 1, why))
      case Panicked(why) => Some(JobPanicked(why))
  }

  /** Runs the jobs in order until one fails; a panic ends the chain too, and becomes an error. */
  method ExecuteChain(chain: seq<Outcome>) returns (err: Option<Failure>, handled: nat)
    ensures StopsAt(chain, handled) && err == FailureOf(chain, handled)
    ensures err == None <==> AllSucceed(chain)
    ensures err != None ==>
              match chain[handled - 1]
              case Failed(why) => err == Some(JobFailed(handled - 1, why))
              case Panicked(why) => err == Some(JobPanicked(why))
              case Success => false
  {
    handled := 0;
    for i := 0 to |chain|
      invariant handled == i && forall j :: 0 <= j < i ==> chain[j].Success?
    {
      handled := i + 1;
      match chain[i] {
        case Success =>
        case Failed(why) => return Some(JobFailed(i, why)), i + 1;
        case Panicked(why) => return Some(JobPanicked(why)), i + 1;
      }
    }
    return None, |chain|;
  }

  /** retry + 1 as a 64-bit integer. */
  function Attempts(retry: int): int {
    Wrap64(retry + 1)
  }

  /**
   * Runs the task until an attempt succeeds or the attempts are used up; chain(k) is what the jobs
   * would do in attempt k. Without an attempt, for a negative number of retries, the result is no
   * error either.
   */
  method ExecWithRetry(retry: int, chain: nat -> seq<Outcome>)
    returns (err: Option<Failure>, made: nat, waits: seq<nat>)
    requires InInt64(retry)
    ensures made == 0 <==> retry < 0 || retry == MAX_INT64
    ensures 0 <= retry < MAX_INT64 ==> 1 <= made <= retry + 1
    ensures forall k :: 1 <= k < made ==> !AllSucceed(chain(k))
    ensures made > 0 && err == None ==> AllSucceed(chain(made))
    ensures made > 0 && err != None ==> made == retry + 1 && !AllSucceed(chain(made))
    ensures made > 0 && err != None ==> exists n :: StopsAt(chain(made), n) && err == FailureOf(chain(made), n)
    ensures made == 0 ==> err == None
    ensures waits == if made == 0 then [] else seq(made - 1, i => 100 * (i + 1))
  {
    var attempts := Attempts(retry);
    err, made, waits := None, 0, [];
    var attempt := 1;
    while attempt <= attempts
      invariant attempt == made + 1 && (if attempts > 0 then made <= attempts else made == 0)
      invariant forall k :: 1 <= k <= made ==> !AllSucceed(chain(k))
      invariant made > 0 ==> exists n :: StopsAt(chain(made), n) && err == FailureOf(chain(made), n)
      invariant made > 0 ==> err != None
      invariant made == 0 ==> err == None
      invariant waits == if made == 0 then [] else seq(made - 1, i => 100 * (i + 1))
      decreases attempts - attempt
    {
      if attempt > 1 {
        waits := waits + [100 * (attempt - 1)];
      }
      var handled;
      err, handled := ExecuteChain(chain(attempt));
      made := attempt;
      assert StopsAt(chain(made), handled);
      if err == None {
        return;
      }
      attempt := attempt + 1;
    }
  }

  /** A task with a retry count of -1 that would fail is not tried, and no error is returned. */
  method NegativeRetry() returns (err: Option<Failure>, made: nat)
    ensures made == 0 && err == None
  {
    var waits;
    err, made, waits := ExecWithRetry(-1, k => [Failed("down")]);
  }
}
