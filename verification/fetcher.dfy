/**
 * `curl(url, c)`: encode the URL, then call `perform` until it succeeds,
 * sleeping `10 * n` seconds before the n-th retry and giving up (re-raising
 * the last error) on the eleventh consecutive failure. An interrupt raised
 * during `perform` propagates at once. The write callback appends to one
 * buffer that is never cleared, so the bytes returned are those of every
 * attempt, in order.
 *
 * libcurl is not modelled: the outcomes of successive `perform` calls are a
 * sequence of `Attempt`s, each with the bytes its callback received. The
 * clock is not modelled either: the method returns the delays it would have
 * slept.
 */
module Fetcher {
  import opened Base
  import opened Errors

  /** How many failures are retried. */
  const MaxRetries: nat := 10

  /** How many times `perform` can be called for one URL. */
  const MaxAttempts: nat := MaxRetries + 1

  /** The n-th retry is preceded by a sleep of `n * BackoffStep` seconds. */
  const BackoffStep: nat := 10

  /** Exceptions that are never retried. */
  datatype Abort = KeyboardInterrupt | SystemExit

  /** How one `perform` call ends; a failure carries the text `str(err)` gives for it. */
  datatype Outcome = Done | Failed(message: string) | Interrupted(kind: Abort)

  /** One `perform` call: the bytes handed to the write callback, then its outcome. */
  datatype Attempt = Attempt(written: seq<byte>, outcome: Outcome)

  /** What `curl` returns or raises. */
  datatype FetchResult =
    | Fetched(body: seq<byte>)
    | FetchFailed(error: PyError)
    | Aborted(kind: Abort)

  // ---------------------------------------------------------------------
  // Encoding the URL

  /** The first index at or after `from` whose character latin-1 cannot encode, or `|s|`. */
  function FirstUnencodable(s: string, from: nat): (i: nat)
    requires from <= |s|
    ensures from <= i <= |s|
    ensures forall k :: from <= k < i ==> s[k] as int < 256
    ensures i < |s| ==> s[i] as int >= 256
    decreases |s| - from
  {
    if from == |s| || s[from] as int >= 256 then from else FirstUnencodable(s, from + 1)
  }

  /** The end of the run of unencodable characters that starts at `from`. */
  function UnencodableRunEnd(s: string, from: nat): (i: nat)
    requires from <= |s|
    ensures from <= i <= |s|
    ensures forall k :: from <= k < i ==> s[k] as int >= 256
    ensures i < |s| ==> s[i] as int < 256
    decreases |s| - from
  {
    if from == |s| || s[from] as int < 256 then from else UnencodableRunEnd(s, from + 1)
  }

  /**
   * `s.encode("iso-8859-1")`: one byte per character, or a
   * `UnicodeEncodeError` that names the first run of characters above 255.
   */
  function Latin1(s: string): (r: Result<seq<byte>, PyError>)
    ensures r.Success? <==> forall k :: 0 <= k < |s| ==> s[k] as int < 256
    ensures r.Success? ==>
      |r.value| == |s| && forall k :: 0 <= k < |s| ==> r.value[k] as int == s[k] as int
    ensures r.Failure? ==>
      && r.error.EncodeError?
      && r.error.start < r.error.end <= |s|
      && r.error.first == s[r.error.start] as int
      && (forall k :: 0 <= k < r.error.start ==> s[k] as int < 256)
      && (forall k :: r.error.start <= k < r.error.end ==> s[k] as int >= 256)
      && (r.error.end < |s| ==> s[r.error.end] as int < 256)
  {
    var start := FirstUnencodable(s, 0);
    if start == |s| then
      Success(seq(|s|, k requires 0 <= k < |s| => s[k] as int as byte))
    else
      Failure(EncodeError(s[start] as int, start, UnencodableRunEnd(s, start + 1)))
  }

  /** `b.decode("iso-8859-1")`, the inverse of `Latin1`. */
  function Latin1Decode(b: seq<byte>): (s: string)
    ensures |s| == |b|
  {
    seq(|b|, k requires 0 <= k < |b| => b[k] as int as char)
  }

  /**
   * Encoding then decoding gives the URL back, so distinct URLs are sent as
   * distinct bytes; decoding then encoding gives the bytes back, so every
   * byte string is the encoding of some URL. Together: `Latin1` is a
   * bijection between the encodable URLs and the byte strings.
   */
  lemma Latin1RoundTrip(s: string, b: seq<byte>)
    ensures Latin1(s).Success? ==> Latin1Decode(Latin1(s).value) == s
    ensures Latin1(Latin1Decode(b)) == Success(b)
  {
    var d := Latin1Decode(b);
    assert forall k :: 0 <= k < |d| ==> d[k] as int == b[k] as int;
    assert Latin1(d).value == b;
  }

  // ---------------------------------------------------------------------
  // The retry loop, in closed form

  /** The index of the first attempt at or after `from` that does not fail, or `MaxAttempts`. */
  function FirstStop(attempts: seq<Attempt>, from: nat): (k: nat)
    requires from <= MaxAttempts <= |attempts|
    ensures from <= k <= MaxAttempts
    ensures forall j :: from <= j < k ==> attempts[j].outcome.Failed?
    ensures k < MaxAttempts ==> !attempts[k].outcome.Failed?
    decreases MaxAttempts - from
  {
    if from == MaxAttempts || !attempts[from].outcome.Failed? then from
    else FirstStop(attempts, from + 1)
  }

  /** The bytes the first `n` attempts handed to the write callback, in order. */
  function Written(attempts: seq<Attempt>, n: nat): seq<byte>
    requires n <= |attempts|
  {
    if n == 0 then [] else Written(attempts, n - 1) + attempts[n - 1].written
  }

  /** The delays slept before the first `n` retries. */
  function Backoff(n: nat): (delays: seq<int>)
    ensures |delays| == n
    ensures forall i :: 0 <= i < n ==> delays[i] == (i + 1) * BackoffStep
  {
    seq(n, i requires 0 <= i < n => (i + 1) * BackoffStep)
  }

  /** What `curl` returns or raises. */
  function FetchSpec(url: string, attempts: seq<Attempt>): FetchResult
    requires |attempts| >= MaxAttempts
  {
    match Latin1(url)
    case Failure(e) => FetchFailed(e)
    case Success(_) =>
      var k := FirstStop(attempts, 0);
      if k == MaxAttempts then FetchFailed(CurlError(attempts[MaxAttempts - 1].outcome.message))
      else if attempts[k].outcome.Interrupted? then Aborted(attempts[k].outcome.kind)
      else Fetched(Written(attempts, k + 1))
  }

  /** The delays `curl` sleeps. */
  function DelaySpec(url: string, attempts: seq<Attempt>): seq<int>
    requires |attempts| >= MaxAttempts
  {
    if Latin1(url).Failure? then []
    else
      var k := FirstStop(attempts, 0);
      Backoff(if k < MaxRetries then k else MaxRetries)
  }

  /** How many times `curl` calls `perform`. */
  function CallSpec(url: string, attempts: seq<Attempt>): nat
    requires |attempts| >= MaxAttempts
  {
    if Latin1(url).Failure? then 0
    else
      var k := FirstStop(attempts, 0);
      if k < MaxAttempts then k + 1 else MaxAttempts
  }

  // ---------------------------------------------------------------------
  // The retry loop as the source runs it

  /**
   * `curl(url, c)`, given the outcomes `perform` would have: returns what
   * the call returns or raises, the delays it sleeps and the number of
   * `perform` calls it makes.
   */
  method Curl(url: string, attempts: seq<Attempt>) returns (r: FetchResult, delays: seq<int>, calls: nat)
    requires |attempts| >= MaxAttempts
    ensures r == FetchSpec(url, attempts)
    ensures delays == DelaySpec(url, attempts)
    ensures calls == CallSpec(url, attempts)
  {
    delays, calls := [], 0;
    if Latin1(url).Failure? {
      r := FetchFailed(Latin1(url).error);
      return;
    }
    var buf: seq<byte> := [];
    var retry: nat := 0;
    while true
      invariant retry <= MaxRetries && calls == retry
      invariant forall j :: 0 <= j < calls ==> attempts[j].outcome.Failed?
      invariant buf == Written(attempts, calls)
      invariant delays == Backoff(retry)
      decreases MaxAttempts - calls
    {
      var attempt := attempts[calls];
      buf := buf + attempt.written;
      calls := calls + 1;
      match attempt.outcome
      case Interrupted(kind) =>
        r := Aborted(kind);
        return;
      case Failed(message) =>
        if retry < MaxRetries {
          retry := retry + 1;
        } else {
          r := FetchFailed(CurlError(message));
          return;
        }
        delays := delays + [retry * BackoffStep];
      case Done =>
        break;
    }
    r := Fetched(buf);
  }

  // ---------------------------------------------------------------------
  // What the closed form promises

  /**
   * `perform` is called at most eleven times, the retry counter stays at
   * most ten, and a sleep separates every two consecutive calls, with none
   * after the last.
   */
  lemma CallsBounded(url: string, attempts: seq<Attempt>)
    requires |attempts| >= MaxAttempts
    ensures CallSpec(url, attempts) <= MaxAttempts
    ensures |DelaySpec(url, attempts)| <= MaxRetries
    ensures CallSpec(url, attempts) >= 1 ==> |DelaySpec(url, attempts)| == CallSpec(url, attempts) - 1
    ensures CallSpec(url, attempts) == 0 <==> Latin1(url).Failure?
  {
  }

  /** The n-th sleep lasts `10 * n` seconds: the backoff is linear. */
  lemma LinearBackoff(url: string, attempts: seq<Attempt>)
    requires |attempts| >= MaxAttempts
    ensures forall i :: 0 <= i < |DelaySpec(url, attempts)| ==> DelaySpec(url, attempts)[i] == (i + 1) * 10
  {
  }

  /** When the first `k` attempts fail, the first attempt that does not fail is attempt `k`. */
  lemma StopAt(attempts: seq<Attempt>, k: nat)
    requires |attempts| >= MaxAttempts && k < MaxAttempts
    requires forall j :: 0 <= j < k ==> attempts[j].outcome.Failed?
    requires !attempts[k].outcome.Failed?
    ensures FirstStop(attempts, 0) == k
  {
  }

  /** An interrupt during any call propagates at once, with no further call and no sleep after it. */
  lemma InterruptIsImmediate(url: string, attempts: seq<Attempt>, k: nat)
    requires |attempts| >= MaxAttempts && k < MaxAttempts && Latin1(url).Success?
    requires forall j :: 0 <= j < k ==> attempts[j].outcome.Failed?
    requires attempts[k].outcome.Interrupted?
    ensures FetchSpec(url, attempts) == Aborted(attempts[k].outcome.kind)
    ensures CallSpec(url, attempts) == k + 1
    ensures DelaySpec(url, attempts) == Backoff(k)
  {
    StopAt(attempts, k);
  }

  /**
   * Eleven consecutive failures re-raise the last one's error, after ten
   * sleeps of 10, 20, …, 100 seconds and without sleeping after it.
   */
  lemma ExhaustionReraisesLast(url: string, attempts: seq<Attempt>)
    requires |attempts| >= MaxAttempts && Latin1(url).Success?
    requires forall j :: 0 <= j < MaxAttempts ==> attempts[j].outcome.Failed?
    ensures FetchSpec(url, attempts) == FetchFailed(CurlError(attempts[MaxAttempts - 1].outcome.message))
    ensures CallSpec(url, attempts) == MaxAttempts
    ensures DelaySpec(url, attempts) == Backoff(MaxRetries)
  {
  }

  /** An unencodable URL raises before `perform` is ever called. */
  lemma EncodeFailsFirst(url: string, attempts: seq<Attempt>)
    requires |attempts| >= MaxAttempts && Latin1(url).Failure?
    ensures FetchSpec(url, attempts) == FetchFailed(Latin1(url).error)
    ensures CallSpec(url, attempts) == 0 && DelaySpec(url, attempts) == []
  {
  }

  /** The bytes attempts `m` to `n - 1` handed to the write callback, in order. */
  function WrittenBetween(attempts: seq<Attempt>, m: nat, n: nat): seq<byte>
    requires m <= n <= |attempts|
    decreases n - m
  {
    if m == n then [] else attempts[m].written + WrittenBetween(attempts, m + 1, n)
  }

  /**
   * The bytes of earlier attempts are never discarded: after `n` attempts
   * the buffer holds those of the first `m`, followed by those of the rest.
   */
  lemma {:induction false} WrittenSplit(attempts: seq<Attempt>, m: nat, n: nat)
    requires m <= n <= |attempts|
    ensures Written(attempts, n) == Written(attempts, m) + WrittenBetween(attempts, m, n)
    decreases n - m
  {
    if m < n {
      WrittenSplit(attempts, m + 1, n);
      assert Written(attempts, m + 1) == Written(attempts, m) + attempts[m].written;
      assert WrittenBetween(attempts, m, n) == attempts[m].written + WrittenBetween(attempts, m + 1, n);
    }
  }

  /** Attempt `j`'s bytes sit in `Written(attempts, n)` right after those of the attempts before it. */
  lemma WrittenSlot(attempts: seq<Attempt>, j: nat, n: nat)
    requires j < n <= |attempts|
    ensures |Written(attempts, j)| + |attempts[j].written| <= |Written(attempts, n)|
    ensures Written(attempts, n)[|Written(attempts, j)|..|Written(attempts, j)| + |attempts[j].written|]
         == attempts[j].written
  {
    WrittenSplit(attempts, j, n);
    var x, y, z := Written(attempts, j), attempts[j].written, WrittenBetween(attempts, j + 1, n);
    assert WrittenBetween(attempts, j, n) == y + z;
    SliceMiddle(x, y, z);
  }

  /** The middle part of a concatenation of three. */
  lemma SliceMiddle(x: seq<byte>, y: seq<byte>, z: seq<byte>)
    ensures (x + (y + z))[|x|..|x| + |y|] == y
  {
    assert (x + (y + z))[|x|..] == y + z;
    assert (y + z)[..|y|] == y;
  }

  /**
   * When attempt `k` succeeds after `k` failures, the body holds the bytes
   * of every attempt, in order.
   */
  lemma SuccessKeepsEveryAttempt(url: string, attempts: seq<Attempt>, k: nat, j: nat)
    requires |attempts| >= MaxAttempts && k < MaxAttempts && Latin1(url).Success?
    requires forall i :: 0 <= i < k ==> attempts[i].outcome.Failed?
    requires attempts[k].outcome == Done
    requires j <= k
    ensures FetchSpec(url, attempts) == Fetched(Written(attempts, k + 1))
    ensures CallSpec(url, attempts) == k + 1 && DelaySpec(url, attempts) == Backoff(k)
    ensures |Written(attempts, j)| + |attempts[j].written| <= |Written(attempts, k + 1)|
    ensures Written(attempts, k + 1)[|Written(attempts, j)|..|Written(attempts, j)| + |attempts[j].written|]
         == attempts[j].written
  {
    StopAt(attempts, k);
    WrittenSlot(attempts, j, k + 1);
  }
}
