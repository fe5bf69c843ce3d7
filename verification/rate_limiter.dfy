/** The fixed-window request limiter: one bucket per key, reset when its minute is over. */
module RateLimiter {
  import opened Snapshots
  import opened TrustPaths

  /** A missing bucket is the zero value: it starts at the zero time and counts nothing. */
  datatype Bucket = Bucket(start: Instant, count: int)

  datatype Request = Request(key: string, at: Instant)

  datatype Decision = Decision(key: string, at: Instant, admitted: bool, window: Instant)

  function BucketOf(buckets: map<string, Bucket>, key: string): Bucket {
    if key in buckets then buckets[key] else Bucket(0, 0)
  }

  function Counted(bucket: Bucket, now: Instant): Bucket {
    if bucket.start == 0 || Sub(now, bucket.start) >= MINUTE then Bucket(now, 1)
    else Bucket(bucket.start, bucket.count + 1)
  }

  class Limiter {
    const limit: int
    var buckets: map<string, Bucket>

    constructor (limit: int)
      ensures this.limit == limit && buckets == map[]
    {
      this.limit, buckets := limit, map[];
    }

    /** The critical section of the middleware. */
    method Exceeds(key: string, now: Instant) returns (exceeded: bool)
      modifies this`buckets
      ensures buckets == old(buckets)[key := Counted(BucketOf(old(buckets), key), now)]
      ensures exceeded <==> Counted(BucketOf(old(buckets), key), now).count > limit
    {
      var bucket := if key in buckets then buckets[key] else Bucket(0, 0);
      if bucket.start == 0 || Sub(now, bucket.start) >= MINUTE {
        bucket := Bucket(now, 0);
      }
      bucket := bucket.(count := bucket.count + 1);
      buckets := buckets[key := bucket];
      exceeded := bucket.count > limit;
    }
  }

  // --- Whole request sequences ---

  datatype History = History(buckets: map<string, Bucket>, decisions: seq<Decision>)

  function Serve(limit: int, requests: seq<Request>): History {
    if requests == [] then History(map[], [])
    else
      var n := |requests| - 1;
      var before, r := Serve(limit, requests[..n]), requests[n];
      var bucket := Counted(BucketOf(before.buckets, r.key), r.at);
      History(before.buckets[r.key := bucket],
              before.decisions + [Decision(r.key, r.at, bucket.count <= limit, bucket.start)])
  }

  /** Feeding the requests one by one to a new limiter gives the decisions of Serve. */
  method ServeAll(limit: int, requests: seq<Request>) returns (decisions: seq<bool>)
    ensures |decisions| == |requests| == |Serve(limit, requests).decisions|
    ensures forall i :: 0 <= i < |decisions| ==>
      decisions[i] == Serve(limit, requests).decisions[i].admitted
  {
    var limiter := new Limiter(limit);
    decisions := [];
    for k := 0 to |requests|
      invariant limiter.limit == limit
      invariant limiter.buckets == Serve(limit, requests[..k]).buckets
      invariant |decisions| == k == |Serve(limit, requests[..k]).decisions|
      invariant forall i :: 0 <= i < k ==>
        decisions[i] == Serve(limit, requests[..k]).decisions[i].admitted
    {
      assert requests[..k + 1][..k] == requests[..k];
      var exceeded := limiter.Exceeds(requests[k].key, requests[k].at);
      decisions := decisions + [!exceeded];
    }
    assert requests[..|requests|] == requests;
  }

  ghost predicate InOrder(requests: seq<Request>) {
    && (forall i :: 0 <= i < |requests| ==> requests[i].at > 0)
    && (forall i, j :: 0 <= i < j < |requests| ==> requests[i].at <= requests[j].at)
  }

  function Quota(limit: int): nat {
    if limit < 0 then 0 else limit
  }

  /** Requests of the key admitted in the window that starts at the given instant. */
  function AdmittedInWindow(decisions: seq<Decision>, key: string, window: Instant): nat {
    if decisions == [] then 0
    else
      var n := |decisions| - 1;
      var d := decisions[n];
      AdmittedInWindow(decisions[..n], key, window)
      + if d.key == key && d.admitted && d.window == window then 1 else 0
  }

  /** Requests of the key admitted at from or later and before to. */
  function AdmittedBetween(decisions: seq<Decision>, key: string, from: Instant, to: Instant): nat {
    if decisions == [] then 0
    else
      var n := |decisions| - 1;
      var d := decisions[n];
      AdmittedBetween(decisions[..n], key, from, to)
      + if d.key == key && d.admitted && from <= d.at < to then 1 else 0
  }

  ghost predicate WindowsUpTo(decisions: seq<Decision>, key: string, last: Instant) {
    forall i :: 0 <= i < |decisions| && decisions[i].key == key ==> decisions[i].window <= last
  }

  lemma {:induction false} LaterWindowsAreEmpty(decisions: seq<Decision>, key: string,
                                                last: Instant, window: Instant)
    requires WindowsUpTo(decisions, key, last) && window > last
    ensures AdmittedInWindow(decisions, key, window) == 0
  {
    if decisions != [] {
      LaterWindowsAreEmpty(decisions[..|decisions| - 1], key, last, window);
    }
  }

  function LastTime(requests: seq<Request>): Instant {
    if requests == [] then 0 else requests[|requests| - 1].at
  }

  lemma ServeExtends(limit: int, requests: seq<Request>)
    requires requests != []
    ensures var n := |requests| - 1;
      var before, h, r := Serve(limit, requests[..n]), Serve(limit, requests), requests[n];
      var b := Counted(BucketOf(before.buckets, r.key), r.at);
      && h.decisions == before.decisions + [Decision(r.key, r.at, b.count <= limit, b.start)]
      && h.decisions[..|before.decisions|] == before.decisions
      && BucketOf(h.buckets, r.key) == b
      && (forall k :: k != r.key ==> BucketOf(h.buckets, k) == BucketOf(before.buckets, k))
  {
  }

  lemma ServeOneMore(limit: int, requests: seq<Request>, r: Request)
    ensures var before, h := Serve(limit, requests), Serve(limit, requests + [r]);
      var b := Counted(BucketOf(before.buckets, r.key), r.at);
      && h.decisions == before.decisions + [Decision(r.key, r.at, b.count <= limit, b.start)]
      && (forall k :: BucketOf(h.buckets, k)
            == if k == r.key then b else BucketOf(before.buckets, k))
  {
    assert (requests + [r])[..|requests|] == requests;
  }

  lemma {:induction false} OneDecisionEach(limit: int, requests: seq<Request>)
    ensures |Serve(limit, requests).decisions| == |requests|
  {
    if requests != [] {
      OneDecisionEach(limit, requests[..|requests| - 1]);
    }
  }

  function Admitted(limit: int, count: int): int {
    if count < Quota(limit) then count else Quota(limit)
  }

  /** The bucket counts the requests of its window, and the admitted ones among them. */
  lemma {:induction false} BucketCounts(limit: int, requests: seq<Request>, key: string)
    requires InOrder(requests)
    ensures var h := Serve(limit, requests);
      var b := BucketOf(h.buckets, key);
      && b.count >= 0 && 0 <= b.start <= LastTime(requests) && (b.start == 0 ==> b.count == 0)
      && WindowsUpTo(h.decisions, key, b.start)
      && AdmittedInWindow(h.decisions, key, b.start) == Admitted(limit, b.count)
  {
    if requests != [] {
      var n := |requests| - 1;
      BucketCounts(limit, requests[..n], key);
      ServeExtends(limit, requests);
      var before, r := Serve(limit, requests[..n]), requests[n];
      assert LastTime(requests[..n]) <= r.at;
      if r.key == key {
        var b := BucketOf(before.buckets, key);
        if Counted(b, r.at).start != b.start {
          LaterWindowsAreEmpty(before.decisions, key, b.start, r.at);
        }
      }
    }
  }

  ghost predicate DecidedBy(limit: int, before: seq<Decision>, r: Request, d: Decision) {
    && d.key == r.key && d.at == r.at && d.window <= d.at < d.window + MINUTE
    && (d.admitted <==> AdmittedInWindow(before, d.key, d.window) < Quota(limit))
  }

  lemma LastIsDecidedByWindow(limit: int, requests: seq<Request>)
    requires InOrder(requests) && requests != []
    ensures var n := |requests| - 1;
      var before, h := Serve(limit, requests[..n]), Serve(limit, requests);
      |h.decisions| == |before.decisions| + 1
      && DecidedBy(limit, before.decisions, requests[n], h.decisions[|before.decisions|])
  {
    var n := |requests| - 1;
    var before, r := Serve(limit, requests[..n]), requests[n];
    BucketCounts(limit, requests[..n], r.key);
    ServeExtends(limit, requests);
    assert LastTime(requests[..n]) <= r.at;
    var b := BucketOf(before.buckets, r.key);
    if Counted(b, r.at).start != b.start {
      LaterWindowsAreEmpty(before.decisions, r.key, b.start, r.at);
    } else {
      assert r.at - b.start < MINUTE;
    }
  }

  /**
   A request is decided by its window alone: it is admitted exactly when fewer than the limit were
   admitted in that window before, and the window is the minute that contains it.
   */
  lemma {:induction false} DecidedByWindow(limit: int, requests: seq<Request>, i: nat)
    requires InOrder(requests) && i < |requests|
    ensures var decisions := Serve(limit, requests).decisions;
      |decisions| == |requests| && DecidedBy(limit, decisions[..i], requests[i], decisions[i])
  {
    var n := |requests| - 1;
    OneDecisionEach(limit, requests);
    OneDecisionEach(limit, requests[..n]);
    ServeExtends(limit, requests);
    var before, h := Serve(limit, requests[..n]), Serve(limit, requests);
    if i < n {
      DecidedByWindow(limit, requests[..n], i);
      assert h.decisions[..i] == before.decisions[..i];
    } else {
      LastIsDecidedByWindow(limit, requests);
    }
  }

  /** Request p is the last one of request i's key before it. */
  ghost predicate Precedes(requests: seq<Request>, p: int, i: int) {
    && 0 <= p < i < |requests| && requests[p].key == requests[i].key
    && forall j :: p < j < i ==> requests[j].key != requests[i].key
  }

  ghost predicate IsFirst(requests: seq<Request>, i: int) {
    0 <= i < |requests| && forall j :: 0 <= j < i ==> requests[j].key != requests[i].key
  }

  /** A first request opens a window; a later one stays in the last window until its minute is over. */
  ghost predicate Continues(requests: seq<Request>, decisions: seq<Decision>, i: int)
    requires 0 <= i < |requests| == |decisions|
  {
    && (IsFirst(requests, i) ==> decisions[i].window == requests[i].at)
    && (forall p :: Precedes(requests, p, i) ==>
          decisions[i].window ==
            if requests[i].at - decisions[p].window >= 60_000_000_000 then requests[i].at
            else decisions[p].window)
  }

  /** The bucket of a key starts with the window of the key's last request. */
  lemma {:induction false} BucketStart(limit: int, requests: seq<Request>, key: string, p: nat)
    requires p < |requests| && requests[p].key == key
    requires forall j :: p < j < |requests| ==> requests[j].key != key
    ensures |Serve(limit, requests).decisions| == |requests|
    ensures BucketOf(Serve(limit, requests).buckets, key).start == Serve(limit, requests).decisions[p].window
  {
    var n := |requests| - 1;
    OneDecisionEach(limit, requests);
    OneDecisionEach(limit, requests[..n]);
    ServeExtends(limit, requests);
    if p < n {
      BucketStart(limit, requests[..n], key, p);
      var h, before := Serve(limit, requests), Serve(limit, requests[..n]);
      assert h.decisions[p] == h.decisions[..n][p] == before.decisions[p];
    }
  }

  lemma {:induction false} NoBucketYet(limit: int, requests: seq<Request>, key: string)
    requires forall j :: 0 <= j < |requests| ==> requests[j].key != key
    ensures BucketOf(Serve(limit, requests).buckets, key) == Bucket(0, 0)
  {
    if requests != [] {
      NoBucketYet(limit, requests[..|requests| - 1], key);
      ServeExtends(limit, requests);
    }
  }

  lemma FirstWindow(limit: int, requests: seq<Request>)
    requires requests != [] && IsFirst(requests, |requests| - 1)
    ensures |Serve(limit, requests).decisions| == |requests|
    ensures Serve(limit, requests).decisions[|requests| - 1].window == requests[|requests| - 1].at
  {
    var n := |requests| - 1;
    OneDecisionEach(limit, requests[..n]);
    ServeExtends(limit, requests);
    NoBucketYet(limit, requests[..n], requests[n].key);
  }

  lemma NextWindow(limit: int, requests: seq<Request>, p: nat)
    requires InOrder(requests) && requests != [] && Precedes(requests, p, |requests| - 1)
    ensures var decisions, n := Serve(limit, requests).decisions, |requests| - 1;
      |decisions| == |requests|
      && decisions[n].window ==
        if requests[n].at - decisions[p].window >= 60_000_000_000 then requests[n].at
        else decisions[p].window
  {
    var n := |requests| - 1;
    var rest, r := requests[..n], requests[n];
    OneDecisionEach(limit, rest);
    ServeExtends(limit, requests);
    BucketStart(limit, rest, r.key, p);
    WindowOpened(limit, rest, p);
    var h, before := Serve(limit, requests), Serve(limit, rest);
    assert h.decisions[p] == h.decisions[..n][p] == before.decisions[p];
    assert h.decisions[n].window == Counted(BucketOf(before.buckets, r.key), r.at).start;
  }

  lemma {:induction false} WindowOpened(limit: int, requests: seq<Request>, p: nat)
    requires InOrder(requests) && p < |requests| == |Serve(limit, requests).decisions|
    ensures Serve(limit, requests).decisions[p].window != 0
  {
    var n := |requests| - 1;
    OneDecisionEach(limit, requests[..n]);
    ServeExtends(limit, requests);
    if p < n {
      WindowOpened(limit, requests[..n], p);
      var h, before := Serve(limit, requests), Serve(limit, requests[..n]);
      assert h.decisions[p] == h.decisions[..n][p] == before.decisions[p];
    }
  }

  lemma LastWindow(limit: int, requests: seq<Request>)
    requires InOrder(requests) && requests != []
    ensures |Serve(limit, requests).decisions| == |requests|
    ensures Continues(requests, Serve(limit, requests).decisions, |requests| - 1)
  {
    OneDecisionEach(limit, requests);
    if IsFirst(requests, |requests| - 1) {
      FirstWindow(limit, requests);
    }
    forall p: int | Precedes(requests, p, |requests| - 1)
      ensures var decisions, n := Serve(limit, requests).decisions, |requests| - 1;
        decisions[n].window ==
          if requests[n].at - decisions[p].window >= 60_000_000_000 then requests[n].at
          else decisions[p].window
    {
      NextWindow(limit, requests, p);
    }
  }

  /**
   A key's first request opens a window at its own instant; a later one stays in the window of the one
   before it for a minute after that window's start and then opens a new one.
   */
  lemma {:induction false} WindowsFollow(limit: int, requests: seq<Request>, i: nat)
    requires InOrder(requests) && i < |requests|
    ensures |Serve(limit, requests).decisions| == |requests|
    ensures Continues(requests, Serve(limit, requests).decisions, i)
  {
    var n := |requests| - 1;
    OneDecisionEach(limit, requests);
    if i < n {
      WindowsFollow(limit, requests[..n], i);
      ServeExtends(limit, requests);
      OneDecisionEach(limit, requests[..n]);
      var h, before := Serve(limit, requests), Serve(limit, requests[..n]);
      assert forall j :: 0 <= j < n ==> h.decisions[j] == h.decisions[..n][j] == before.decisions[j];
      assert IsFirst(requests, i) <==> IsFirst(requests[..n], i);
      forall p ensures Precedes(requests, p, i) <==> Precedes(requests[..n], p, i) {
      }
    } else {
      LastWindow(limit, requests);
    }
  }

  /** No window admits more than the limit. */
  lemma {:induction false} WindowQuota(limit: int, requests: seq<Request>, key: string, window: Instant)
    requires InOrder(requests)
    ensures AdmittedInWindow(Serve(limit, requests).decisions, key, window) <= Quota(limit)
  {
    if requests != [] {
      WindowQuota(limit, requests[..|requests| - 1], key, window);
      LastIsDecidedByWindow(limit, requests);
      ServeExtends(limit, requests);
    }
  }

  /** What the bucket of a key says about the requests admitted in [t, t + MINUTE). */
  ghost predicate MinuteBounded(limit: int, admitted: int, b: Bucket, last: Instant, t: Instant) {
    && admitted <= 2 * Quota(limit)
    && (last < t ==> admitted == 0)
    && (b.start < t ==> admitted <= Admitted(limit, b.count))
    && (t <= b.start < t + MINUTE ==> admitted <= Quota(limit) + Admitted(limit, b.count))
  }

  lemma MinuteStep(limit: int, admitted: int, b: Bucket, last: Instant, t: Instant, now: Instant)
    requires MinuteBounded(limit, admitted, b, last, t)
    requires 0 <= b.start <= last <= now && now > 0
    requires b.count >= 0 && (b.start == 0 ==> b.count == 0)
    ensures var b' := Counted(b, now);
      var more := if b'.count <= limit && t <= now < t + MINUTE then 1 else 0;
      MinuteBounded(limit, admitted + more, b', now, t)
  {
  }

  lemma OneMoreAdmitted(decisions: seq<Decision>, d: Decision, key: string, from: Instant, to: Instant)
    ensures AdmittedBetween(decisions + [d], key, from, to)
         == AdmittedBetween(decisions, key, from, to)
            + if d.key == key && d.admitted && from <= d.at < to then 1 else 0
  {
    assert (decisions + [d])[..|decisions|] == decisions;
  }

  ghost predicate RunBounded(limit: int, requests: seq<Request>, key: string, t: Instant) {
    var h := Serve(limit, requests);
    MinuteBounded(limit, AdmittedBetween(h.decisions, key, t, t + MINUTE),
                  BucketOf(h.buckets, key), LastTime(requests), t)
  }

  lemma OwnRequest(limit: int, rest: seq<Request>, r: Request, key: string, t: Instant)
    requires InOrder(rest) && RunBounded(limit, rest, key, t)
    requires LastTime(rest) <= r.at && r.at > 0 && r.key == key
    ensures RunBounded(limit, rest + [r], key, t)
  {
    var before := Serve(limit, rest);
    var b, admitted := BucketOf(before.buckets, key), AdmittedBetween(before.decisions, key, t, t + MINUTE);
    BucketCounts(limit, rest, key);
    ServeOneMore(limit, rest, r);
    OneMoreAdmitted(before.decisions,
      Decision(key, r.at, Counted(b, r.at).count <= limit, Counted(b, r.at).start), key, t, t + MINUTE);
    MinuteStep(limit, admitted, b, LastTime(rest), t, r.at);
  }

  lemma MinutePasses(limit: int, admitted: int, b: Bucket, last: Instant, t: Instant, now: Instant)
    requires MinuteBounded(limit, admitted, b, last, t) && last <= now
    ensures MinuteBounded(limit, admitted, b, now, t)
  {
  }

  lemma OtherRequest(limit: int, rest: seq<Request>, r: Request, key: string, t: Instant)
    requires RunBounded(limit, rest, key, t)
    requires LastTime(rest) <= r.at && r.key != key
    ensures RunBounded(limit, rest + [r], key, t)
  {
    var before := Serve(limit, rest);
    var b, other := BucketOf(before.buckets, key), Counted(BucketOf(before.buckets, r.key), r.at);
    ServeOneMore(limit, rest, r);
    OneMoreAdmitted(before.decisions, Decision(r.key, r.at, other.count <= limit, other.start),
                    key, t, t + MINUTE);
    MinutePasses(limit, AdmittedBetween(before.decisions, key, t, t + MINUTE), b, LastTime(rest), t, r.at);
    assert BucketOf(Serve(limit, rest + [r]).buckets, key) == b;
  }

  lemma {:induction false} MinuteBound(limit: int, requests: seq<Request>, key: string, t: Instant)
    requires InOrder(requests)
    ensures RunBounded(limit, requests, key, t)
  {
    if requests != [] {
      var n := |requests| - 1;
      var rest, r := requests[..n], requests[n];
      MinuteBound(limit, rest, key, t);
      assert requests == rest + [r] && LastTime(rest) <= r.at;
      if r.key == key {
        OwnRequest(limit, rest, r, key, t);
      } else {
        OtherRequest(limit, rest, r, key, t);
      }
    }
  }

  /** In any half-open minute at most twice the limit is admitted per key. */
  lemma AnyMinuteQuota(limit: int, requests: seq<Request>, key: string, t: Instant)
    requires InOrder(requests)
    ensures AdmittedBetween(Serve(limit, requests).decisions, key, t, t + MINUTE) <= 2 * Quota(limit)
  {
    MinuteBound(limit, requests, key, t);
  }

  // --- Keys do not affect each other ---

  function OfKey(requests: seq<Request>, key: string): seq<Request> {
    if requests == [] then []
    else
      var n := |requests| - 1;
      OfKey(requests[..n], key) + if requests[n].key == key then [requests[n]] else []
  }

  function DecisionsOf(decisions: seq<Decision>, key: string): seq<Decision> {
    if decisions == [] then []
    else
      var n := |decisions| - 1;
      DecisionsOf(decisions[..n], key) + if decisions[n].key == key then [decisions[n]] else []
  }

  lemma OneMoreDecision(decisions: seq<Decision>, d: Decision, key: string)
    ensures DecisionsOf(decisions + [d], key)
         == DecisionsOf(decisions, key) + if d.key == key then [d] else []
  {
    assert (decisions + [d])[..|decisions|] == decisions;
  }

  /** The decisions about a key are those of a run in which only that key makes requests. */
  lemma {:induction false} KeysAreIndependent(limit: int, requests: seq<Request>, key: string)
    ensures DecisionsOf(Serve(limit, requests).decisions, key)
         == Serve(limit, OfKey(requests, key)).decisions
    ensures BucketOf(Serve(limit, requests).buckets, key)
         == BucketOf(Serve(limit, OfKey(requests, key)).buckets, key)
  {
    if requests != [] {
      var n := |requests| - 1;
      var rest, r := requests[..n], requests[n];
      KeysAreIndependent(limit, rest, key);
      assert requests == rest + [r];
      ServeOneMore(limit, rest, r);
      var d := Serve(limit, requests).decisions[|Serve(limit, rest).decisions|];
      OneMoreDecision(Serve(limit, rest).decisions, d, key);
      if r.key == key {
        ServeOneMore(limit, OfKey(rest, key), r);
      } else {
        assert OfKey(requests, key) == OfKey(rest, key);
      }
    }
  }
}
