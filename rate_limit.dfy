/** The sliding-window limiter guarding sign-up and sign-in: per client key, the times of recent
    admitted requests. */
module RateLimit {
  import opened Wrappers
  import opened Exceptions

  /** `AUTH_RATE_LIMIT`: admitted requests per window and key. */
  const AuthRateLimit: nat := 10
  /** `AUTH_RATE_WINDOW`, in seconds. */
  const AuthRateWindow: nat := 60

  /** The key a request is counted under: its client host, or the one shared key "unknown". */
  function ClientKey(clientHost: Option<string>): (r: string)
    ensures clientHost.None? ==> r == "unknown"
    ensures clientHost.Some? ==> r == clientHost.value
  {
    if clientHost.Some? then clientHost.value else "unknown"
  }

  /** Requests from two different client hosts are counted under different keys; only requests without client
      information share the key "unknown" (with a client whose host is literally "unknown"). */
  lemma ClientKeysSeparate(a: Option<string>, b: Option<string>)
    requires a != b && (a.Some? || b.Some?)
    ensures ClientKey(a) == ClientKey(b) ==> (a.None? && b == Some("unknown")) || (b.None? && a == Some("unknown"))
  {
  }

  /** `[t for t in ts if t > cutoff]`. */
  function KeepAfter(ts: seq<int>, cutoff: int): (r: seq<int>)
    ensures |r| <= |ts|
    ensures forall i :: 0 <= i < |r| ==> r[i] > cutoff
    ensures forall i :: 0 <= i < |ts| && ts[i] > cutoff ==> ts[i] in r
    ensures Subsequence(r, ts)
    ensures forall t :: multiset(r)[t] == if t > cutoff then multiset(ts)[t] else 0
  {
    if ts == [] then []
    else
      assert ts == [ts[0]] + ts[1..];
      if ts[0] > cutoff then [ts[0]] + KeepAfter(ts[1..], cutoff)
      else KeepAfter(ts[1..], cutoff)
  }

  /** `a` is `b` with some elements left out, the rest in their original order. */
  ghost predicate Subsequence(a: seq<int>, b: seq<int>)
    decreases |b|
  {
    if a == [] then true
    else if b == [] then false
    else (a[0] == b[0] && Subsequence(a[1..], b[1..])) || Subsequence(a, b[1..])
  }

  /** Nondecreasing, as the timestamps of a monotonic clock are. */
  ghost predicate Sorted(ts: seq<int>)
  {
    forall i, j :: 0 <= i < j < |ts| ==> ts[i] <= ts[j]
  }

  /** Every element of a subsequence is bounded below by the first element of the sequence it was taken from. */
  lemma {:induction false} SubsequenceAbove(a: seq<int>, b: seq<int>)
    requires Sorted(b) && Subsequence(a, b)
    ensures forall i :: 0 <= i < |a| ==> b[0] <= a[i]
    decreases |b|
  {
    if a != [] {
      if a[0] == b[0] && Subsequence(a[1..], b[1..]) {
        if |a| > 1 {
          SubsequenceAbove(a[1..], b[1..]);
        }
      } else {
        SubsequenceAbove(a, b[1..]);
      }
    }
  }

  /** Leaving elements out of a sorted sequence keeps it sorted. */
  lemma {:induction false} SubsequenceSorted(a: seq<int>, b: seq<int>)
    requires Sorted(b) && Subsequence(a, b)
    ensures Sorted(a)
    decreases |b|
  {
    if a != [] {
      if a[0] == b[0] && Subsequence(a[1..], b[1..]) {
        SubsequenceSorted(a[1..], b[1..]);
        if |a| > 1 {
          SubsequenceAbove(a[1..], b[1..]);
        }
      } else {
        SubsequenceSorted(a, b[1..]);
      }
    }
  }

  /** Every element of a subsequence occurs in the sequence it was taken from. */
  lemma {:induction false} SubsequenceMembers(a: seq<int>, b: seq<int>)
    requires Subsequence(a, b)
    ensures forall t :: t in a ==> t in b
    decreases |b|
  {
    if a != [] {
      if a[0] == b[0] && Subsequence(a[1..], b[1..]) {
        SubsequenceMembers(a[1..], b[1..]);
        assert forall t :: t in a ==> t == a[0] || t in a[1..];
      } else {
        SubsequenceMembers(a, b[1..]);
      }
    }
  }

  /** Appending a value no smaller than any element keeps a sequence sorted. */
  lemma AppendSorted(s: seq<int>, x: int)
    requires Sorted(s) && forall t :: t in s ==> t <= x
    ensures Sorted(s + [x])
  {
    assert forall i :: 0 <= i < |s| ==> s[i] in s;
  }

  /** When nothing is older than the cutoff, purging keeps everything. */
  lemma {:induction false} KeepAfterAll(ts: seq<int>, cutoff: int)
    requires forall i :: 0 <= i < |ts| ==> ts[i] > cutoff
    ensures KeepAfter(ts, cutoff) == ts
  {
    if ts != [] {
      KeepAfterAll(ts[1..], cutoff);
    }
  }

  /** A full sorted window refuses the next request exactly while its oldest entry is still inside the
      window: the caller must wait for that entry to age out. */
  lemma FullWindowRefusesUntilOldestAgesOut(ts: seq<int>, now: int)
    requires Sorted(ts) && |ts| == AuthRateLimit
    ensures |KeepAfter(ts, now - AuthRateWindow)| >= AuthRateLimit <==> ts[0] > now - AuthRateWindow
  {
    var cutoff := now - AuthRateWindow;
    if ts[0] > cutoff {
      KeepAfterAll(ts, cutoff);
    } else {
      assert KeepAfter(ts, cutoff) == KeepAfter(ts[1..], cutoff);
    }
  }

  /** The list a key holds after one `auth_rate_limit` call at time `now` on the list `before`: the entries
      still inside the window, plus `now` when fewer than `AuthRateLimit` of them remain. Every entry is inside
      the window, the bound on the list is kept, and a list recorded in time order stays in time order. */
  function Recorded(before: seq<int>, now: int): (after: seq<int>)
    ensures forall t :: t in after ==> t > now - AuthRateWindow
    ensures |before| <= AuthRateLimit ==> |after| <= AuthRateLimit
    ensures Sorted(before) && (forall t :: t in before ==> t <= now) ==> Sorted(after)
  {
    var kept := KeepAfter(before, now - AuthRateWindow);
    PurgeKeepsOrder(before, now);
    if |kept| >= AuthRateLimit then kept else kept + [now]
  }

  /** What purging a time-ordered list and appending `now` preserve. */
  lemma PurgeKeepsOrder(before: seq<int>, now: int)
    ensures Sorted(before) ==> Sorted(KeepAfter(before, now - AuthRateWindow))
    ensures Sorted(before) && (forall t :: t in before ==> t <= now) ==>
              Sorted(KeepAfter(before, now - AuthRateWindow) + [now])
  {
    var kept := KeepAfter(before, now - AuthRateWindow);
    SubsequenceMembers(kept, before);
    if Sorted(before) {
      SubsequenceSorted(kept, before);
      if forall t :: t in before ==> t <= now {
        AppendSorted(kept, now);
      }
    }
  }

  /** The per-key request log, `_request_log`; a missing key reads as an empty list (a `defaultdict`). */
  class RateLimiter {
    var requestLog: map<string, seq<int>>

    /** No key ever holds more than `AuthRateLimit` timestamps. */
    ghost predicate Valid()
      reads this
    {
      forall k :: k in requestLog ==> |requestLog[k]| <= AuthRateLimit
    }

    /** The list kept for `key`. */
    function Entries(key: string): seq<int>
      reads this
    {
      if key in requestLog then requestLog[key] else []
    }

    constructor ()
      ensures Valid() && requestLog == map[]
    {
      requestLog := map[];
    }

    /** `_clean_old_entries`: replaces the list of `ip` by its entries newer than `now - window`. */
    method CleanOldEntries(ip: string, window: int, now: int)
      requires Valid()
      modifies this
      ensures Valid()
      ensures requestLog == old(requestLog)[ip := KeepAfter(old(Entries(ip)), now - window)]
    {
      requestLog := requestLog[ip := KeepAfter(Entries(ip), now - window)];
    }

    /** `auth_rate_limit` at time `now`: purge the caller's key, refuse with RateLimitError if
        `AuthRateLimit` entries remain, otherwise record `now`. Only the caller's key changes. */
    method CheckAuthRateLimit(clientHost: Option<string>, now: int) returns (r: Outcome<AppException>)
      requires Valid()
      modifies this
      ensures Valid()
      ensures var key := ClientKey(clientHost);
              var kept := KeepAfter(old(Entries(key)), now - AuthRateWindow);
              && (|kept| >= AuthRateLimit ==> r == Fail(RateLimitError()))
              && (|kept| < AuthRateLimit ==> r == Pass)
              && requestLog == old(requestLog)[key := Recorded(old(Entries(key)), now)]
    {
      var ip := ClientKey(clientHost);
      CleanOldEntries(ip, AuthRateWindow, now);
      var kept := requestLog[ip];
      if |kept| >= AuthRateLimit {
        r := Fail(RateLimitError());
        return;
      }
      requestLog := requestLog[ip := kept + [now]];
      r := Pass;
    }
  }
}
