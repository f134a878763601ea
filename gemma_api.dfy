/**
 * The request guards of the speech-to-text service: a per-IP sliding-window rate limiter,
 * the check of an uploaded audio file's name and size, and the cap on generated tokens.
 *
 * Timestamps are whole microseconds (the resolution of Python's `datetime`); the current
 * time, which the service reads from the clock, is a parameter.
 */
module GemmaApi {
  import opened Wrappers
  import opened Strings

  const RateLimitPerMinute: nat := 25
  /** `timedelta(minutes=1)` in microseconds. */
  const OneMinute: int := 60_000_000
  const MaxAudioSize: int := 50 * 1024 * 1024
  const MaxNewTokens: int := 4096
  const SupportedAudioFormats: seq<string> := [".wav", ".mp3", ".flac", ".m4a", ".ogg", ".webm"]

  // ---------------------------------------------------------------------------------------
  // Rate limiting

  /** The list comprehension that keeps the timestamps less than one minute older than `now`,
      in their order. */
  function Recent(ts: seq<int>, now: int): (r: seq<int>)
    ensures |r| <= |ts|
    ensures forall t :: t in r <==> t in ts && now - t < OneMinute
    ensures forall t :: multiset(r)[t] == if now - t < OneMinute then multiset(ts)[t] else 0
  {
    if |ts| == 0 then []
    else
      assert ts == [ts[0]] + ts[1..];
      (if now - ts[0] < OneMinute then [ts[0]] else []) + Recent(ts[1..], now)
  }

  /** One call of `check_rate_limit` on one IP's list: the pruned list, plus `now` when the
      call is allowed, and whether it is. */
  function Step(ts: seq<int>, now: int): (r: (seq<int>, bool))
    ensures r.1 <==> |Recent(ts, now)| < RateLimitPerMinute
    ensures r.0 == if r.1 then Recent(ts, now) + [now] else Recent(ts, now)
  {
    var kept := Recent(ts, now);
    if |kept| >= RateLimitPerMinute then (kept, false) else (kept + [now], true)
  }

  /** No IP's list is longer than the limit. */
  ghost predicate Bounded(storage: map<string, seq<int>>) {
    forall ip :: ip in storage ==> |storage[ip]| <= RateLimitPerMinute
  }

  /** `check_rate_limit(client_ip)` on the whole storage: a missing IP starts with an empty
      list, and only that IP's entry changes. */
  function RateStep(storage: map<string, seq<int>>, ip: string, now: int)
    : (r: (map<string, seq<int>>, bool))
    ensures r.0.Keys == storage.Keys + {ip}
    ensures forall other :: other in storage && other != ip ==> r.0[other] == storage[other]
    ensures (r.0[ip], r.1) == Step(if ip in storage then storage[ip] else [], now)
  {
    var (ts, allowed) := Step(if ip in storage then storage[ip] else [], now);
    (storage[ip := ts], allowed)
  }

  /** The limit is never exceeded: a list within it stays within it. */
  lemma StepBounded(ts: seq<int>, now: int)
    requires |ts| <= RateLimitPerMinute
    ensures |Step(ts, now).0| <= RateLimitPerMinute
  {
  }

  lemma RateStepBounded(storage: map<string, seq<int>>, ip: string, now: int)
    requires Bounded(storage)
    ensures Bounded(RateStep(storage, ip, now).0)
  {
    var r := RateStep(storage, ip, now);
    StepBounded(if ip in storage then storage[ip] else [], now);
  }

  /** After a call the IP's list holds only timestamps less than a minute older than now. */
  lemma RateStepRecent(storage: map<string, seq<int>>, ip: string, now: int)
    ensures forall t :: t in RateStep(storage, ip, now).0[ip] ==> now - t < OneMinute
  {
  }

  /** An allowed call appends exactly `now` to the pruned list; a refused one appends
      nothing. */
  lemma StepAppends(ts: seq<int>, now: int)
    ensures var (kept, allowed) := Step(ts, now);
            (allowed ==> |kept| == |Recent(ts, now)| + 1 && kept[|kept| - 1] == now
                         && kept[..|kept| - 1] == Recent(ts, now))
            && (!allowed ==> kept == Recent(ts, now) && |kept| >= RateLimitPerMinute)
  {
    var (kept, allowed) := Step(ts, now);
    if allowed {
      assert kept[..|kept| - 1] == Recent(ts, now);
    }
  }

  /** The per-IP lists `check_rate_limit` keeps, as a class over the module-level dict. */
  class RateLimiter {
    var storage: map<string, seq<int>>

    ghost predicate Valid()
      reads this
    {
      Bounded(storage)
    }

    constructor ()
      ensures Valid() && storage == map[]
    {
      storage := map[];
    }

    /** `check_rate_limit(client_ip)` with the clock reading `now`. */
    method CheckRateLimit(clientIp: string, now: int) returns (allowed: bool)
      requires Valid()
      modifies this
      ensures Valid()
      ensures (storage, allowed) == RateStep(old(storage), clientIp, now)
    {
      RateStepBounded(storage, clientIp, now);
      if clientIp !in storage {
        storage := storage[clientIp := []];
      }
      var kept := Recent(storage[clientIp], now);
      storage := storage[clientIp := kept];
      if |storage[clientIp]| >= RateLimitPerMinute {
        assert storage == old(storage)[clientIp := kept];
        return false;
      }
      storage := storage[clientIp := storage[clientIp] + [now]];
      assert storage == old(storage)[clientIp := kept + [now]];
      return true;
    }
  }

  // ---------------------------------------------------------------------------------------
  // The sliding window over a run of calls from one IP

  /** The list and the decisions after calls at `times`, starting from no entry. */
  function Run(times: seq<int>): (r: (seq<int>, seq<bool>))
    ensures |r.1| == |times|
  {
    if |times| == 0 then ([], [])
    else
      var (ts, decisions) := Run(times[..|times| - 1]);
      var (ts', allowed) := Step(ts, times[|times| - 1]);
      (ts', decisions + [allowed])
  }

  /** The times of the allowed calls. */
  function Allowed(times: seq<int>, decisions: seq<bool>): (r: seq<int>)
    requires |decisions| == |times|
    ensures |r| <= |times|
  {
    if |times| == 0 then []
    else Allowed(times[..|times| - 1], decisions[..|times| - 1])
         + (if decisions[|times| - 1] then [times[|times| - 1]] else [])
  }

  predicate NonDecreasing(times: seq<int>) {
    forall i, j :: 0 <= i < j < |times| ==> times[i] <= times[j]
  }

  /** The pruning keeps the order of the timestamps: pruning two runs is pruning the first
      followed by pruning the second. */
  lemma {:induction false} RecentAppend(a: seq<int>, b: seq<int>, now: int)
    ensures Recent(a + b, now) == Recent(a, now) + Recent(b, now)
  {
    if |a| == 0 {
      assert a + b == b;
    } else {
      assert (a + b)[1..] == a[1..] + b;
      RecentAppend(a[1..], b, now);
    }
  }

  /** Pruning at an earlier time, then at a later one, is pruning at the later one. */
  lemma {:induction false} RecentTwice(ts: seq<int>, earlier: int, later: int)
    requires earlier <= later
    ensures Recent(Recent(ts, earlier), later) == Recent(ts, later)
  {
    if |ts| > 0 {
      RecentTwice(ts[1..], earlier, later);
      var head := if earlier - ts[0] < OneMinute then [ts[0]] else [];
      RecentAppend(head, Recent(ts[1..], earlier), later);
    }
  }

  /** One more call: its decision is appended, and the list is stepped at its time. */
  lemma RunLast(times: seq<int>)
    requires |times| > 0
    ensures var prefix := Run(times[..|times| - 1]);
            var step := Step(prefix.0, times[|times| - 1]);
            Run(times) == (step.0, prefix.1 + [step.1])
  {
  }

  /** One more call adds its time to the allowed ones exactly when it is allowed. */
  lemma AllowedLast(times: seq<int>, decisions: seq<bool>)
    requires |times| > 0 && |decisions| == |times|
    ensures var n := |times|;
            Allowed(times, decisions)
            == Allowed(times[..n - 1], decisions[..n - 1]) + (if decisions[n - 1] then [times[n - 1]] else [])
  {
  }

  /** With the clock never going back, the list kept for an IP is exactly the allowed calls
      of the last minute. */
  lemma {:induction false} RunWindow(times: seq<int>)
    requires |times| > 0 && NonDecreasing(times)
    ensures Run(times).0 == Recent(Allowed(times, Run(times).1), times[|times| - 1])
  {
    var n := |times|;
    var now := times[n - 1];
    var prefix := times[..n - 1];
    var before := Run(prefix);
    var step := Step(before.0, now);
    RunLast(times);
    var decisions := before.1 + [step.1];
    assert decisions[..n - 1] == before.1;
    AllowedLast(times, decisions);
    var last: seq<int> := if step.1 then [now] else [];
    var allowedBefore := Allowed(prefix, before.1);
    assert Allowed(times, Run(times).1) == allowedBefore + last;
    RecentAppend(allowedBefore, last, now);
    assert Recent(last, now) == last;
    assert step.0 == Recent(before.0, now) + last;
    if n == 1 {
      assert before.0 == [] && allowedBefore == [];
    } else {
      assert NonDecreasing(prefix) && prefix[n - 2] <= now;
      RunWindow(prefix);
      assert before.0 == Recent(allowedBefore, prefix[n - 2]);
      RecentTwice(allowedBefore, prefix[n - 2], now);
    }
  }

  /** The sliding window: a call is allowed exactly when fewer than 25 calls were allowed in
      the minute before it. */
  lemma RunDecision(times: seq<int>)
    requires |times| > 0 && NonDecreasing(times)
    ensures var n := |times|;
            Run(times).1[n - 1]
            <==> |Recent(Allowed(times[..n - 1], Run(times[..n - 1]).1), times[n - 1])| < RateLimitPerMinute
  {
    var n := |times|;
    var prefix := times[..n - 1];
    if n > 1 {
      RunWindow(prefix);
      RecentTwice(Allowed(prefix, Run(prefix).1), prefix[n - 2], times[n - 1]);
    }
  }

  // ---------------------------------------------------------------------------------------
  // Upload validation

  /** `os.path.splitext(p)` on POSIX: the extension runs from the last dot of the last path
      component, provided that component has something other than dots before it. */
  function SplitExt(p: string): (r: (string, string))
    ensures r.0 + r.1 == p
    ensures r.1 != "" ==> r.1[0] == '.' && forall i :: 0 <= i < |r.1| ==> r.1[i] != '/' && (i > 0 ==> r.1[i] != '.')
  {
    var sep := RFindChar(p, '/');
    var dot := RFindChar(p, '.');
    if dot > sep && exists i :: sep < i < dot && p[i] != '.' then (p[..dot], p[dot..]) else (p, "")
  }

  /** The inverse of the split: a root whose last component has a character other than a
      dot, followed by a dot and a name without dots or slashes, splits back into the two. */
  lemma SplitExtOfJoin(root: string, ext: string)
    requires exists i :: RFindChar(root, '/') < i < |root| && root[i] != '.'
    requires |ext| > 0 && ext[0] == '.'
    requires forall i :: 0 <= i < |ext| ==> ext[i] != '/' && (i > 0 ==> ext[i] != '.')
    ensures SplitExt(root + ext) == (root, ext)
  {
    var p := root + ext;
    var sep := RFindChar(root, '/');
    assert forall i :: |root| <= i < |p| ==> p[i] == ext[i - |root|];
    assert p[|root|] == '.';
    assert RFindChar(p, '.') == |root|;
    assert sep >= 0 ==> p[sep] == '/';
    assert RFindChar(p, '/') == sep;
    var i :| sep < i < |root| && root[i] != '.';
    assert p[i] != '.';
    assert p[..|root|] == root && p[|root|..] == ext;
  }

  /** `validate_audio_file(file)`: the file has a name, its lower-cased extension is one of
      the six formats, and its size, when known and non-zero, is at most 50 MB. */
  function ValidateAudioFile(filename: Option<string>, size: Option<int>): (ok: bool)
    ensures ok ==> filename.Some? && filename.value != ""
    ensures ok ==> Lower(SplitExt(filename.value).1) in SupportedAudioFormats
    ensures ok ==> size.None? || size.value <= MaxAudioSize
  {
    if filename.None? || filename.value == "" then false
    else if Lower(SplitExt(filename.value).1) !in SupportedAudioFormats then false
    else if size.Some? && size.value != 0 && size.value > MaxAudioSize then false
    else true
  }

  /** An accepted file's name ends, in some letter case, with one of the formats. */
  lemma AcceptedEndsWithFormat(filename: string, size: Option<int>)
    requires ValidateAudioFile(Some(filename), size)
    ensures exists f :: f in SupportedAudioFormats && |f| <= |filename|
                        && Lower(filename[|filename| - |f|..]) == f
  {
    var (root, ext) := SplitExt(filename);
    assert filename[|filename| - |ext|..] == ext;
  }

  /** The formats are a leading dot followed by lower-case letters and digits, so they hold
      no other dot and no slash. */
  lemma FormatsAreExtensions(f: string)
    requires f in SupportedAudioFormats
    ensures |f| > 0 && f[0] == '.' && forall i :: 0 <= i < |f| ==> f[i] != '/' && (i > 0 ==> f[i] != '.')
    ensures forall i :: 0 < i < |f| ==> 'a' <= f[i] <= 'z' || '0' <= f[i] <= '9'
  {
  }

  /** Any name with a proper base name and one of the formats as extension, in any letter
      case, is accepted when its size is within the limit. */
  lemma AcceptsEveryFormat(root: string, ext: string, size: Option<int>)
    requires exists i :: RFindChar(root, '/') < i < |root| && root[i] != '.'
    requires Lower(ext) in SupportedAudioFormats
    requires size.None? || size.value <= MaxAudioSize
    ensures ValidateAudioFile(Some(root + ext), size)
  {
    FormatsAreExtensions(Lower(ext));
    assert forall i :: 0 <= i < |ext| ==> LowerChar(ext[i]) == Lower(ext)[i];
    SplitExtOfJoin(root, ext);
  }

  /** A file named only by an extension, such as ".wav", has no extension for `splitext`
      and is refused. */
  lemma DotFileRefused(ext: string, size: Option<int>)
    requires |ext| > 0 && ext[0] == '.'
    requires forall i :: 0 <= i < |ext| ==> ext[i] != '/' && (i > 0 ==> ext[i] != '.')
    ensures !ValidateAudioFile(Some(ext), size)
  {
    assert RFindChar(ext, '/') == -1;
    assert RFindChar(ext, '.') == 0;
  }

  /** `min(request.max_tokens, Config.MAX_NEW_TOKENS)`: the request's `max_tokens` is
      optional, and `min` of `None` and a number raises `TypeError` (`None` here), which the
      route answers with status 500. */
  function TokenBudget(requested: Option<int>): (r: Option<int>)
    ensures r.None? <==> requested.None?
    ensures r.Some? ==> r.value <= MaxNewTokens && r.value <= requested.value
    ensures r.Some? ==> r.value == requested.value || r.value == MaxNewTokens
  {
    match requested
    case None => None
    case Some(n) => Some(if n <= MaxNewTokens then n else MaxNewTokens)
  }
}
