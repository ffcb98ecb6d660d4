/** The Service Bus-triggered function that persists an order message as a
    blob. It names the blob once from the current UTC time, makes up to three
    non-overwriting uploads and stops at the first that reports 201 Created.
    Exhausting the attempts, or any exception on the way, lands in one catch
    block that POSTs the original message to the Logic App fallback; that
    POST is itself unguarded.

    The clock, the blob container and the HTTP client are oracles: the
    caller supplies the timestamp and scripts what every call does. */
module OrderItemsReserver {
  import opened Wrappers
  import opened Hosting
  import opened Text
  import opened Clock
  import Utf8

  const MaxAttempts: nat := 3
  /** The only status that counts as success: 201 Created. */
  const CreatedStatus := 201
  const FallbackMediaType := "application/json"
  const BlobPrefix := "order-"
  const BlobSuffix := ".json"

  /** `$"order-{DateTime.UtcNow:yyyyMMddHHmmssfff}.json"` */
  function BlobName(now: ValidDateTime): (name: string)
    ensures |name| == 28
    ensures name[..6] == BlobPrefix && name[23..] == BlobSuffix
  {
    BlobPrefix + FormatBlobStamp(now) + BlobSuffix
  }

  /** Between the fixed prefix and suffix, the name holds the timestamp to
      the millisecond, and it reads back. */
  lemma BlobNameStamp(now: ValidDateTime)
    ensures ParseBlobStamp(BlobName(now)[6..23]) == Some(now)
  {
    BlobStampRoundTrip(now);
    assert BlobName(now)[6..23] == FormatBlobStamp(now);
  }

  /** Two runs get the same blob name exactly when they start in the same
      millisecond; nothing else tells their names apart. */
  lemma BlobNameCollision(a: ValidDateTime, b: ValidDateTime)
    ensures BlobName(a) == BlobName(b) <==> a == b
  {
    if BlobName(a) == BlobName(b) {
      BlobNameStamp(a);
      BlobNameStamp(b);
    }
  }

  /** What one `UploadAsync(stream, overwrite: false)` does: return a
      response with a status, or throw (a name conflict is an exception
      too, since overwriting is off). */
  datatype UploadOutcome = Uploaded(status: int) | UploadFailed

  /** What the fallback `PostAsync` does once a request could be built:
      respond with any status, or throw. */
  datatype PostOutcome = PostResponded(status: int) | PostFailed

  /** One invocation: the message, the LOGIC_APP_URL read at construction
      (`None` when unset), the UTC time the blob name is taken from, what
      upload attempt `k` (from 0) does, and what the fallback POST does. */
  datatype Invocation = Invocation(
    message: string,
    logicAppUrl: Option<string>,
    now: ValidDateTime,
    upload: nat -> UploadOutcome,
    fallback: PostOutcome)

  /** An external call the function made. */
  datatype Effect =
    | Upload(blobName: string, content: seq<Utf8.byte>, overwrite: bool)
    | FallbackPost(url: Option<string>, body: string, mediaType: string)

  datatype RunResult = RunResult(effects: seq<Effect>, completion: Completion)

  /** An attempt that lets the loop go on: it returned, with a status other
      than 201. */
  predicate Continues(o: UploadOutcome) {
    o.Uploaded? && o.status != CreatedStatus
  }

  /** The number of upload attempts made when attempt `from` is reached:
      attempts go on while they continue the loop, up to the bound. */
  function AttemptsFrom(upload: nat -> UploadOutcome, from: nat): (n: nat)
    requires from < MaxAttempts
    decreases MaxAttempts - from
    ensures from < n <= MaxAttempts
    ensures forall j :: from <= j < n - 1 ==> Continues(upload(j))
    ensures n < MaxAttempts ==> !Continues(upload(n - 1))
  {
    if from == MaxAttempts - 1 || !Continues(upload(from)) then from + 1
    else AttemptsFrom(upload, from + 1)
  }

  /** The contract of `AttemptsFrom` pins its value down. */
  lemma {:induction false} AttemptsFromUnique(upload: nat -> UploadOutcome, from: nat, m: nat)
    requires from < m <= MaxAttempts
    requires forall j :: from <= j < m - 1 ==> Continues(upload(j))
    requires m == MaxAttempts || !Continues(upload(m - 1))
    decreases MaxAttempts - from
    ensures AttemptsFrom(upload, from) == m
  {
    if from < m - 1 {
      assert Continues(upload(from));
      AttemptsFromUnique(upload, from + 1, m);
    }
  }

  function UploadCall(inv: Invocation): Effect {
    Upload(BlobName(inv.now), Utf8.Encode(inv.message), false)
  }

  function FallbackCall(inv: Invocation): Effect {
    FallbackPost(inv.logicAppUrl, inv.message, FallbackMediaType)
  }

  /** `PostAsync` turns a null or empty URL string into no URI at all,
      and with no base address it then throws before any request is sent. */
  predicate HasUrl(url: Option<string>) {
    url.Some? && url.value != ""
  }

  /** How the catch block ends: a missing URL makes `PostAsync` throw, an
      exception from the POST escapes, and any response, whatever its
      status, lets the function return. */
  function FallbackCompletion(inv: Invocation): Completion {
    if !HasUrl(inv.logicAppUrl) || inv.fallback.PostFailed? then Raised else Completed
  }

  function Uploads(inv: Invocation, count: nat): seq<Effect> {
    seq(count, _ => UploadCall(inv))
  }

  /** A run stated outright: `n` uploads of the same blob, where `n` counts
      the attempts up to the first that did not continue the loop (or all
      three), then the fallback POST unless that last attempt returned 201. */
  function Expected(inv: Invocation): RunResult {
    var n := AttemptsFrom(inv.upload, 0);
    if inv.upload(n - 1) == Uploaded(CreatedStatus) then
      RunResult(Uploads(inv, n), Completed)
    else
      RunResult(Uploads(inv, n) + [FallbackCall(inv)], FallbackCompletion(inv))
  }

  /** `Run(message)` with the C# method's control flow: the bounded loop
      with an early return on 201, and one exit into the catch block for
      both an upload exception and exhaustion. */
  method Run(inv: Invocation) returns (r: RunResult)
    ensures r == Expected(inv)
  {
    var blobName := BlobName(inv.now);
    var effects: seq<Effect> := [];
    var i := 0;
    while i < MaxAttempts
      invariant 0 <= i <= MaxAttempts
      invariant effects == Uploads(inv, i)
      invariant forall j :: 0 <= j < i ==> Continues(inv.upload(j))
    {
      effects := effects + [Upload(blobName, Utf8.Encode(inv.message), false)];
      assert effects == Uploads(inv, i + 1);
      var outcome := inv.upload(i);
      if outcome.UploadFailed? {
        AttemptsFromUnique(inv.upload, 0, i + 1);
        r := RunResult(effects + [FallbackPost(inv.logicAppUrl, inv.message, FallbackMediaType)], FallbackCompletion(inv));
        return;
      }
      if outcome.status == CreatedStatus {
        AttemptsFromUnique(inv.upload, 0, i + 1);
        r := RunResult(effects, Completed);
        return;
      }
      i := i + 1;
    }
    AttemptsFromUnique(inv.upload, 0, MaxAttempts);
    r := RunResult(effects + [FallbackPost(inv.logicAppUrl, inv.message, FallbackMediaType)], FallbackCompletion(inv));
  }

  /** At least one and at most three uploads, all before anything else,
      and at most one call after them. */
  lemma UploadsBounded(inv: Invocation)
    ensures var r := Expected(inv);
            && 1 <= |r.effects| <= MaxAttempts + 1
            && r.effects[0].Upload?
            && (forall i :: 0 <= i < |r.effects| && r.effects[i].Upload? ==> i < MaxAttempts)
            && (forall i :: 0 <= i < |r.effects| - 1 ==> r.effects[i].Upload?)
  {
  }

  /** Every upload targets the one blob name computed before the loop,
      never overwrites, and carries bytes that decode to the message. */
  lemma UploadsTargetOneBlob(inv: Invocation)
    ensures var r := Expected(inv);
            forall i :: 0 <= i < |r.effects| && r.effects[i].Upload? ==>
              && r.effects[i].blobName == BlobName(inv.now)
              && !r.effects[i].overwrite
              && Utf8.Decode(r.effects[i].content) == Some(inv.message)
  {
    Utf8.DecodeEncode(inv.message);
  }

  /** The first 201 ends the run at once: no later upload, no fallback. */
  lemma CreatedStopsImmediately(inv: Invocation, k: nat)
    requires k < MaxAttempts
    requires forall j :: 0 <= j < k ==> Continues(inv.upload(j))
    requires inv.upload(k) == Uploaded(CreatedStatus)
    ensures var r := Expected(inv);
            && |r.effects| == k + 1
            && (forall i :: 0 <= i < |r.effects| ==> r.effects[i].Upload?)
            && r.completion == Completed
  {
    AttemptsFromUnique(inv.upload, 0, k + 1);
  }

  /** Three returned attempts without a 201: exactly three uploads, then
      exactly one fallback POST of the original message as JSON to the
      configured URL. */
  lemma ExhaustionFallsBackOnce(inv: Invocation)
    requires forall j :: 0 <= j < MaxAttempts ==> Continues(inv.upload(j))
    ensures var r := Expected(inv);
            && |r.effects| == MaxAttempts + 1
            && (forall i :: 0 <= i < MaxAttempts ==> r.effects[i].Upload?)
            && r.effects[MaxAttempts] == FallbackPost(inv.logicAppUrl, inv.message, "application/json")
  {
    AttemptsFromUnique(inv.upload, 0, MaxAttempts);
  }

  /** An upload exception is not retried: attempt `k` is the last upload
      and the fallback POST follows it directly. */
  lemma UploadExceptionNotRetried(inv: Invocation, k: nat)
    requires k < MaxAttempts
    requires forall j :: 0 <= j < k ==> Continues(inv.upload(j))
    requires inv.upload(k).UploadFailed?
    ensures var r := Expected(inv);
            && |r.effects| == k + 2
            && (forall i :: 0 <= i <= k ==> r.effects[i].Upload?)
            && r.effects[k + 1] == FallbackPost(inv.logicAppUrl, inv.message, "application/json")
  {
    AttemptsFromUnique(inv.upload, 0, k + 1);
  }

  /** The fallback is posted exactly when no upload that was made returned
      201, and then only once, as the last call. */
  lemma FallbackIffNoCreated(inv: Invocation)
    ensures var r := Expected(inv);
            && ((exists i :: 0 <= i < |r.effects| && r.effects[i].FallbackPost?) <==>
                (forall j :: 0 <= j < |r.effects| && r.effects[j].Upload? ==> inv.upload(j) != Uploaded(CreatedStatus)))
            && forall i :: 0 <= i < |r.effects| && r.effects[i].FallbackPost? ==> i == |r.effects| - 1
  {
    var r := Expected(inv);
    var n := AttemptsFrom(inv.upload, 0);
    assert forall i :: 0 <= i < n ==> r.effects[i] == UploadCall(inv);
    if inv.upload(n - 1) == Uploaded(CreatedStatus) {
      assert |r.effects| == n;
      assert r.effects[n - 1].Upload?;
    } else {
      assert |r.effects| == n + 1 && r.effects[n].FallbackPost?;
      forall j | 0 <= j < |r.effects| && r.effects[j].Upload?
        ensures inv.upload(j) != Uploaded(CreatedStatus)
      {
        assert j < n;
        if j < n - 1 {
          assert Continues(inv.upload(j));
        }
      }
    }
  }

  /** The run raises exactly when it falls back and the fallback cannot be
      sent: the URL is unset or empty, or the POST throws. */
  lemma FallbackFailureEscapes(inv: Invocation)
    ensures var r := Expected(inv);
            r.completion == Raised <==>
              && r.effects[|r.effects| - 1].FallbackPost?
              && (inv.logicAppUrl.None? || inv.logicAppUrl.value == "" || inv.fallback.PostFailed?)
  {
  }

  /** The fallback's response status is never looked at. */
  lemma FallbackStatusIgnored(inv: Invocation, s1: int, s2: int)
    ensures Expected(inv.(fallback := PostResponded(s1))) == Expected(inv.(fallback := PostResponded(s2)))
  {
  }
}
