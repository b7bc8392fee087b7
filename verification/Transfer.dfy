/**
 One blob over the network: what a request leaves in the `.part` file against any server, and what a
 sequence of interrupted requests adds up to when the server is the blob route.
 */
module Transfer {
  import opened Common
  import opened Ranges

  /** `declared` is the Content-Length, or -1; a broken answer raises after the last chunk. */
  datatype Response = Response(status: int, declared: int, chunks: seq<Bytes>, broken: bool)

  datatype Outcome = Done | Failed(reason: Reason)

  datatype Reason = HttpStatus | WrongLength | TooLong | Truncated | Broken

  function Concat(chunks: seq<Bytes>): Bytes {
    if chunks == [] then [] else Concat(chunks[..|chunks| - 1]) + chunks[|chunks| - 1]
  }

  /** How many of the chunks are written before the limit refuses one. */
  function Accepted(base: nat, chunks: seq<Bytes>, limit: int): (n: nat)
    ensures n <= |chunks|
  {
    if chunks == [] then 0
    else
      var before := Accepted(base, chunks[..|chunks| - 1], limit);
      if before == |chunks| - 1 && base + |Concat(chunks)| <= limit then |chunks| else before
  }

  function SizeOf(dest: Option<Bytes>): nat {
    if dest.Some? then |dest.value| else 0
  }

  /** The part file a request starts from: one that is too long is deleted first. */
  function StartFrom(dest: Option<Bytes>, expected: int): Option<Bytes> {
    if SizeOf(dest) > expected then None else dest
  }

  function RangeHeader(dest: Option<Bytes>): Option<string> {
    if SizeOf(dest) > 0 then Some(ResumeHeader(SizeOf(dest))) else None
  }

  /** What the answer is appended to. */
  function Base(start: Option<Bytes>, answer: Response): Bytes {
    if answer.status == 206 then start.GetOr([]) else []
  }

  /** The part file and the outcome after `answer`, for a request that started from `start`. */
  function Answered(start: Option<Bytes>, expected: int, answer: Response): (Option<Bytes>, Outcome) {
    if answer.status != 200 && answer.status != 206 then (start, Failed(HttpStatus))
    else
      var base := Base(start, answer);
      if answer.declared >= 0 && answer.declared != expected - |base| then (start, Failed(WrongLength))
      else
        var accepted := Accepted(|base|, answer.chunks, expected);
        var written := base + Concat(answer.chunks[..accepted]);
        (Some(written), Ending(accepted, |written|, expected, answer))
  }

  function Ending(accepted: nat, size: nat, expected: int, answer: Response): Outcome {
    if accepted < |answer.chunks| then Failed(TooLong)
    else if answer.broken then Failed(Broken)
    else if size != expected then Failed(Truncated)
    else Done
  }

  /** One whole call: nothing is requested when the part file already has the expected size. */
  function Downloaded(dest: Option<Bytes>, expected: int, server: Option<string> -> Response): (Option<Bytes>, Outcome) {
    var start := StartFrom(dest, expected);
    if SizeOf(start) == expected then (start, Done)
    else Answered(start, expected, server(RangeHeader(start)))
  }

  /** A normal return leaves a part file of the expected size. */
  lemma DoneHasTheExpectedSize(dest: Option<Bytes>, expected: int, server: Option<string> -> Response)
    ensures var (file, outcome) := Downloaded(dest, expected, server);
            outcome.Done? ==> SizeOf(file) == expected && (expected > 0 ==> file.Some?)
  {
  }

  // ---- the method ---------------------------------------------------------

  /** The temporary directory of a download, and the server it talks to. */
  class PartFiles {
    var files: map<string, Bytes>

    constructor (found: map<string, Bytes>)
      ensures files == found
    {
      files := found;
    }

    ghost function Find(name: string): Option<Bytes>
      reads this
    {
      if name in files then Some(files[name]) else None
    }

    /** One request for a blob, asking only for the bytes the part file does not have. */
    method DownloadBlob(name: string, expected: int, server: Option<string> -> Response) returns (outcome: Outcome)
      modifies this
      ensures (Find(name), outcome) == Downloaded(old(Find(name)), expected, server)
      ensures files - {name} == old(files) - {name}
    {
      var have := if name in files then |files[name]| else 0;
      if have > expected {
        files := files - {name};
        have := 0;
      }
      if have == expected {
        return Done;
      }
      ghost var start := Find(name);

      var answer := server(if have > 0 then Some(ResumeHeader(have)) else None);
      var append := answer.status == 206;
      if answer.status != 200 && answer.status != 206 {
        return Failed(HttpStatus);
      }
      if !append {
        have := 0;
      }
      var remaining := expected - have;
      if answer.declared >= 0 && answer.declared != remaining {
        return Failed(WrongLength);
      }

      // Opening the file for writing truncates it unless the answer is to be appended.
      Open(name, append);
      outcome := Receive(name, answer, expected);
    }

    method Open(name: string, append: bool)
      modifies this
      ensures files == old(files)[name := if append then old(Find(name)).GetOr([]) else []]
    {
      if !append || name !in files {
        files := files[name := []];
      }
    }

    /** Append the body to the open file, chunk by chunk, refusing the first one past the limit. */
    method Receive(name: string, answer: Response, expected: int) returns (outcome: Outcome)
      requires name in files
      modifies this
      ensures var base := old(files[name]);
              var accepted := Accepted(|base|, answer.chunks, expected);
              && files == old(files)[name := base + Concat(answer.chunks[..accepted])]
              && outcome == Ending(accepted, |files[name]|, expected, answer)
    {
      ghost var base := files[name];
      var total := |files[name]|;
      var n := 0;
      while n < |answer.chunks|
        invariant n <= |answer.chunks|
        invariant name in files && files[name] == base + Concat(answer.chunks[..n]) && total == |files[name]|
        invariant files == old(files)[name := files[name]]
        invariant Accepted(|base|, answer.chunks[..n], expected) == n
      {
        assert answer.chunks[..n + 1][..n] == answer.chunks[..n];
        total := total + |answer.chunks[n]|;
        if total > expected {
          StopsAt(|base|, answer.chunks, n, expected);
          return Failed(TooLong);
        }
        files := files[name := files[name] + answer.chunks[n]];
        n := n + 1;
      }
      assert answer.chunks[..n] == answer.chunks;
      if answer.broken {
        return Failed(Broken);
      }
      if total != expected {
        return Failed(Truncated);
      }
      return Done;
    }
  }

  /** Once a chunk is refused, no later chunk is written. */
  lemma {:induction false} StopsAt(base: nat, chunks: seq<Bytes>, n: nat, limit: int)
    requires n < |chunks| && Accepted(base, chunks[..n], limit) == n
    requires base + |Concat(chunks[..n + 1])| > limit
    ensures Accepted(base, chunks, limit) == n
  {
    if |chunks| == n + 1 {
      assert chunks[..n + 1] == chunks;
    } else {
      var shorter := chunks[..|chunks| - 1];
      assert shorter[..n] == chunks[..n] && shorter[..n + 1] == chunks[..n + 1];
      StopsAt(base, shorter, n, limit);
    }
  }

  // ---- the blob route ----------------------------------------------------

  datatype Reply = Reply(status: int, body: Bytes)

  /** The route's answer for a stored blob; a refused token or a withdrawn release is not 200 or 206. */
  function Serve(blob: Bytes, range: Option<string>): Reply {
    if range.None? then Reply(200, blob)
    else
      match ParseRange(range.value, |blob|)
      case Whole => Reply(200, blob)
      case Unsatisfiable => Reply(416, [])
      case Part(start, end) => if 0 <= start <= end < |blob| then Reply(206, blob[start..end + 1]) else Reply(206, [])
  }

  /**
   An answer that goes back to the blob route: possibly with the range header lost on the way, or
   refused, and possibly cut at any point of the body.
   */
  ghost predicate Honest(blob: Bytes, range: Option<string>, answer: Response) {
    || (answer.status != 200 && answer.status != 206)
    || FromRoute(Serve(blob, range), answer)
    || FromRoute(Serve(blob, None), answer)
  }

  ghost predicate FromRoute(reply: Reply, answer: Response) {
    && answer.status == reply.status
    && (answer.declared == |reply.body| || answer.declared == -1)
    && Concat(answer.chunks) <= reply.body
    && (!answer.broken ==> Concat(answer.chunks) == reply.body)
  }

  /** The part file after a sequence of attempts. */
  function After(part: Option<Bytes>, expected: int, answers: seq<Response>): Option<Bytes> {
    if answers == [] then part
    else
      var before := After(part, expected, answers[..|answers| - 1]);
      Downloaded(before, expected, (range: Option<string>) => answers[|answers| - 1]).0
  }

  ghost predicate HonestRun(part: Option<Bytes>, blob: Bytes, answers: seq<Response>) {
    forall n | 0 <= n < |answers| :: Honest(blob, RangeHeader(After(part, |blob|, answers[..n])), answers[n])
  }

  ghost predicate IsPrefix(part: Option<Bytes>, blob: Bytes) {
    part.Some? ==> part.value <= blob
  }

  lemma {:induction false} ConcatGrows(chunks: seq<Bytes>, n: nat)
    requires n <= |chunks|
    ensures Concat(chunks[..n]) <= Concat(chunks)
  {
    if n < |chunks| {
      ConcatGrows(chunks[..|chunks| - 1], n);
      assert chunks[..|chunks| - 1][..n] == chunks[..n];
    } else {
      assert chunks[..n] == chunks;
    }
  }

  /** The route answers a resume with exactly the bytes after those the client has. */
  lemma ResumeContinues(part: Option<Bytes>, blob: Bytes, answer: Response)
    requires IsPrefix(part, blob) && SizeOf(part) < |blob|
    requires Honest(blob, RangeHeader(part), answer) && (answer.status == 200 || answer.status == 206)
    ensures Base(part, answer) + Concat(answer.chunks) <= blob
    ensures !answer.broken ==> Base(part, answer) + Concat(answer.chunks) == blob
    ensures answer.declared >= 0 ==> answer.declared == |blob| - |Base(part, answer)|
  {
    if SizeOf(part) > 0 {
      ResumeAsksForTheRest(SizeOf(part), |blob|);
    }
  }

  /** One attempt from a prefix leaves a prefix, and a normal return leaves the whole blob. */
  lemma AttemptKeepsPrefix(part: Option<Bytes>, blob: Bytes, answer: Response)
    requires IsPrefix(part, blob) && Honest(blob, RangeHeader(part), answer)
    ensures var (file, outcome) := Downloaded(part, |blob|, (range: Option<string>) => answer);
            IsPrefix(file, blob) && (outcome.Done? ==> file.GetOr([]) == blob)
  {
    if SizeOf(part) < |blob| && (answer.status == 200 || answer.status == 206) {
      ResumeContinues(part, blob, answer);
      ConcatGrows(answer.chunks, Accepted(|Base(part, answer)|, answer.chunks, |blob|));
    }
  }

  /** After any sequence of interrupted attempts the part file is a prefix of the blob. */
  lemma {:induction false} PartIsAlwaysAPrefix(part: Option<Bytes>, blob: Bytes, answers: seq<Response>)
    requires IsPrefix(part, blob) && HonestRun(part, blob, answers)
    ensures IsPrefix(After(part, |blob|, answers), blob)
  {
    if answers != [] {
      var n := |answers| - 1;
      assert forall k | 0 <= k < n :: answers[..n][..k] == answers[..k];
      PartIsAlwaysAPrefix(part, blob, answers[..n]);
      AttemptKeepsPrefix(After(part, |blob|, answers[..n]), blob, answers[n]);
    }
  }

  /** An attempt that returns normally, after any interrupted ones, leaves exactly the blob. */
  lemma ResumeIsExact(part: Option<Bytes>, blob: Bytes, answers: seq<Response>, last: Response)
    requires IsPrefix(part, blob) && HonestRun(part, blob, answers)
    requires Honest(blob, RangeHeader(After(part, |blob|, answers)), last)
    ensures var (file, outcome) := Downloaded(After(part, |blob|, answers), |blob|, (range: Option<string>) => last);
            outcome.Done? ==> file.GetOr([]) == blob
  {
    PartIsAlwaysAPrefix(part, blob, answers);
    AttemptKeepsPrefix(After(part, |blob|, answers), blob, last);
  }

  // ---- an answer that is not cut off -------------------------------------

  /** The whole blob, or the rest of it for a client that has so many bytes, from beginning to end. */
  ghost predicate Delivers(blob: Bytes, have: nat, answer: Response)
    requires have <= |blob|
  {
    && !answer.broken
    && (answer.declared == -1 || answer.declared == |Concat(answer.chunks)|)
    && (|| (answer.status == 200 && Concat(answer.chunks) == blob)
        || (answer.status == 206 && Concat(answer.chunks) == blob[have..]))
  }

  /** The request of a client that has so many bytes. */
  function Asking(have: nat): Option<string> {
    if have == 0 then None else Some("bytes=" + Decimal(have) + "-")
  }

  /** Wherever the client stands, the answer gives it what is missing. */
  ghost predicate DeliversAll(blob: Bytes, server: Option<string> -> Response) {
    forall have: nat | have < |blob| :: Delivers(blob, have, server(Asking(have)))
  }

  lemma {:induction false} NothingIsRefused(base: nat, chunks: seq<Bytes>, limit: int)
    requires base + |Concat(chunks)| <= limit
    ensures Accepted(base, chunks, limit) == |chunks|
  {
    if chunks != [] {
      NothingIsRefused(base, chunks[..|chunks| - 1], limit);
    }
  }

  /** A start of the blob, or a file that is too long to be one and is thrown away. */
  predicate IsUsable(part: Option<Bytes>, blob: Bytes) {
    SizeOf(part) > |blob| || (part.Some? ==> part.value <= blob)
  }

  /** Whatever was there before, an answer that is not cut off completes the blob. */
  lemma WholeAnswerFinishes(part: Option<Bytes>, blob: Bytes, server: Option<string> -> Response)
    requires blob != [] && IsUsable(part, blob) && DeliversAll(blob, server)
    ensures Downloaded(part, |blob|, server) == (Some(blob), Done)
  {
    var start := StartFrom(part, |blob|);
    var have := SizeOf(start);
    if have < |blob| {
      var answer := server(Asking(have));
      assert Delivers(blob, have, answer);
      assert RangeHeader(start) == Asking(have);
      assert Base(start, answer) + Concat(answer.chunks) == blob;
      NothingIsRefused(|Base(start, answer)|, answer.chunks, |blob|);
      assert answer.chunks[..|answer.chunks|] == answer.chunks;
    } else {
      assert start.value == blob;
    }
  }

  /** The blob route gives such answers, unless the connection breaks: to a resume, only the missing bytes. */
  lemma RouteDelivers(blob: Bytes, have: nat, answer: Response)
    requires have < |blob| && !answer.broken && FromRoute(Serve(blob, Asking(have)), answer)
    ensures Delivers(blob, have, answer) && (have > 0 ==> answer.status == 206)
  {
    if have > 0 {
      assert Asking(have).value == ResumeHeader(have);
      ResumeAsksForTheRest(have, |blob|);
      assert blob[have..|blob|] == blob[have..];
    }
  }

  // ---- how much is transferred -------------------------------------------

  /** Bytes the attempt writes to the part file. */
  function Received(part: Option<Bytes>, expected: int, answer: Response): nat {
    var start := StartFrom(part, expected);
    if SizeOf(start) == expected || (answer.status != 200 && answer.status != 206)
       || (answer.declared >= 0 && answer.declared != expected - |Base(start, answer)|)
    then 0
    else |Concat(answer.chunks[..Accepted(|Base(start, answer)|, answer.chunks, expected)])|
  }

  function TotalReceived(part: Option<Bytes>, expected: int, answers: seq<Response>): nat {
    if answers == [] then 0
    else
      var n := |answers| - 1;
      TotalReceived(part, expected, answers[..n]) + Received(After(part, expected, answers[..n]), expected, answers[n])
  }

  /** Bytes of the part file an answer with status 200 throws away. */
  function Discarded(part: Option<Bytes>, blob: Bytes, answer: Response): nat {
    if SizeOf(part) < |blob| && answer.status == 200 then SizeOf(part) else 0
  }

  function TotalDiscarded(part: Option<Bytes>, blob: Bytes, answers: seq<Response>): nat {
    if answers == [] then 0
    else
      var n := |answers| - 1;
      TotalDiscarded(part, blob, answers[..n]) + Discarded(After(part, |blob|, answers[..n]), blob, answers[n])
  }

  /** Every byte received is either in the part file or was thrown away by an answer that restarted it. */
  lemma {:induction false} NoByteIsLost(part: Option<Bytes>, blob: Bytes, answers: seq<Response>)
    requires IsPrefix(part, blob) && HonestRun(part, blob, answers)
    ensures SizeOf(part) + TotalReceived(part, |blob|, answers)
         == SizeOf(After(part, |blob|, answers)) + TotalDiscarded(part, blob, answers)
  {
    if answers != [] {
      var n := |answers| - 1;
      assert forall k | 0 <= k < n :: answers[..n][..k] == answers[..k];
      NoByteIsLost(part, blob, answers[..n]);
      PartIsAlwaysAPrefix(part, blob, answers[..n]);
      AttemptBalances(After(part, |blob|, answers[..n]), blob, answers[n]);
    }
  }

  lemma AttemptBalances(before: Option<Bytes>, blob: Bytes, answer: Response)
    requires IsPrefix(before, blob) && Honest(blob, RangeHeader(before), answer)
    ensures SizeOf(before) + Received(before, |blob|, answer)
         == SizeOf(Downloaded(before, |blob|, (range: Option<string>) => answer).0) + Discarded(before, blob, answer)
  {
    if SizeOf(before) < |blob| && (answer.status == 200 || answer.status == 206) {
      ResumeContinues(before, blob, answer);
    }
  }

  /** When every answer to a resume is a 206, no byte is received twice: all of them are in the part file. */
  lemma NoByteIsReceivedTwice(part: Option<Bytes>, blob: Bytes, answers: seq<Response>)
    requires IsPrefix(part, blob) && HonestRun(part, blob, answers)
    requires forall n | 0 <= n < |answers| ::
               answers[n].status == 200 ==> SizeOf(After(part, |blob|, answers[..n])) in {0, |blob|}
    ensures TotalReceived(part, |blob|, answers) == SizeOf(After(part, |blob|, answers)) - SizeOf(part) <= |blob|
  {
    OnlyResumedAnswersDiscardNothing(part, blob, answers);
    NoByteIsLost(part, blob, answers);
    PartIsAlwaysAPrefix(part, blob, answers);
  }

  lemma {:induction false} OnlyResumedAnswersDiscardNothing(part: Option<Bytes>, blob: Bytes, answers: seq<Response>)
    requires forall n | 0 <= n < |answers| ::
               answers[n].status == 200 ==> SizeOf(After(part, |blob|, answers[..n])) in {0, |blob|}
    ensures TotalDiscarded(part, blob, answers) == 0
  {
    if answers != [] {
      var n := |answers| - 1;
      assert forall k | 0 <= k < n :: answers[..n][..k] == answers[..k];
      OnlyResumedAnswersDiscardNothing(part, blob, answers[..n]);
    }
  }
}
