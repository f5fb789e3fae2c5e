// The code evolver: a cache keyed by function body in front of an external
// rewrite service, with a concurrency limiter, a retry policy for rate
// limiting, output sanitizing and a filter for whitespace/semicolon-only
// rewrites. The service is an oracle: `service(n)` is the answer to the n-th
// call made during the run.
module Evolver {
  import opened Wrappers
  import opened JsText
  import opened Limiter

  // ---------------------------------------------------------------------------
  // Cosmetic-change filter
  // ---------------------------------------------------------------------------

  /** Characters the cosmetic filter ignores: `[\s;]`. */
  predicate IsCosmeticChar(c: char)
  {
    IsWs(c) || c == ';'
  }

  /** `str.replace(/[\s;]/g, '')`. */
  function StripCosmetic(s: string): string
  {
    if s == [] then []
    else if IsCosmeticChar(s[0]) then StripCosmetic(s[1..])
    else [s[0]] + StripCosmetic(s[1..])
  }

  /** `isCosmeticChange`: the two texts agree once whitespace and semicolons are removed. */
  predicate IsCosmeticChange(oldCode: string, newCode: string)
  {
    StripCosmetic(oldCode) == StripCosmetic(newCode)
  }

  lemma {:induction false} StripCosmeticAppend(a: string, b: string)
    ensures StripCosmetic(a + b) == StripCosmetic(a) + StripCosmetic(b)
  {
    if a != [] {
      assert (a + b)[1..] == a[1..] + b;
      StripCosmeticAppend(a[1..], b);
    } else {
      assert a + b == b;
    }
  }

  /** Inserting a whitespace character or a semicolon anywhere is a cosmetic change. */
  lemma CosmeticInsertion(x: string, y: string, c: char)
    requires IsCosmeticChar(c)
    ensures IsCosmeticChange(x + y, x + [c] + y)
  {
    StripCosmeticAppend(x, y);
    StripCosmeticAppend(x + [c], y);
    StripCosmeticAppend(x, [c]);
    assert StripCosmetic([c]) == StripCosmetic([]);
  }

  /** The stripped text keeps no whitespace or semicolon, so stripping twice changes nothing. */
  lemma {:induction false} StripCosmeticIdempotent(s: string)
    ensures forall i | 0 <= i < |StripCosmetic(s)| :: !IsCosmeticChar(StripCosmetic(s)[i])
    ensures StripCosmetic(StripCosmetic(s)) == StripCosmetic(s)
  {
    if s != [] {
      StripCosmeticIdempotent(s[1..]);
      if !IsCosmeticChar(s[0]) {
        var r := StripCosmetic(s[1..]);
        assert StripCosmetic(s) == [s[0]] + r;
        assert ([s[0]] + r)[1..] == r;
      }
    }
  }

  /** The filter is an equivalence: reflexive, symmetric, transitive. */
  lemma CosmeticIsEquivalence(a: string, b: string, c: string)
    ensures IsCosmeticChange(a, a)
    ensures IsCosmeticChange(a, b) ==> IsCosmeticChange(b, a)
    ensures IsCosmeticChange(a, b) && IsCosmeticChange(b, c) ==> IsCosmeticChange(a, c)
  {
  }

  // ---------------------------------------------------------------------------
  // Sanitizing the service's answer
  // ---------------------------------------------------------------------------

  const Fence := "```"

  /** No "```" anywhere in `s` (so none of the fences "```javascript", "```js", "```"). */
  predicate NoFence(s: string)
  {
    forall i | 0 <= i <= |s| :: !HasPrefixAt(s, i, Fence)
  }

  /** `.replace(/```javascript|```js|```/g, '')`: scan left to right, at each offset remove the first alternative that matches there. */
  function StripFences(s: string): string
    decreases |s|
  {
    if HasPrefixAt(s, 0, "```javascript") then StripFences(s[13..])
    else if HasPrefixAt(s, 0, "```js") then StripFences(s[5..])
    else if HasPrefixAt(s, 0, Fence) then StripFences(s[3..])
    else if s == [] then []
    else [s[0]] + StripFences(s[1..])
  }

  /** `.replace(/^\s+/, '')` */
  function TrimStart(s: string): (r: string)
  {
    if s != [] && IsWs(s[0]) then TrimStart(s[1..]) else s
  }

  /** `.replace(/\s+$/, '')` */
  function TrimEnd(s: string): (r: string)
  {
    if s != [] && IsWs(s[|s| - 1]) then TrimEnd(s[..|s| - 1]) else s
  }

  /** `.replace(/;+$/, '')` */
  function DropTrailingSemicolons(s: string): (r: string)
  {
    if s != [] && s[|s| - 1] == ';' then DropTrailingSemicolons(s[..|s| - 1]) else s
  }

  /** Trimming the start removes a prefix made only of whitespace and keeps the rest, which does
      not begin with whitespace. */
  lemma {:induction false} TrimStartSpec(s: string)
    ensures var r := TrimStart(s);
      && |r| <= |s| && r == s[|s| - |r|..] && (r == [] || !IsWs(r[0]))
      && forall i | 0 <= i < |s| - |r| :: IsWs(s[i])
  {
    if s != [] && IsWs(s[0]) {
      var t := s[1..];
      TrimStartSpec(t);
      var r := TrimStart(t);
      assert s[|s| - |r|..] == t[|t| - |r|..];
      forall i | 0 <= i < |s| - |r| ensures IsWs(s[i]) {
        if i > 0 {
          assert s[i] == t[i - 1];
        }
      }
    }
  }

  /** Trimming the end removes a suffix made only of whitespace and keeps the rest, which does
      not end with whitespace. */
  lemma {:induction false} TrimEndSpec(s: string)
    ensures var r := TrimEnd(s);
      && |r| <= |s| && r == s[..|r|] && (r == [] || !IsWs(r[|r| - 1]))
      && forall i | |r| <= i < |s| :: IsWs(s[i])
  {
    if s != [] && IsWs(s[|s| - 1]) {
      var t := s[..|s| - 1];
      TrimEndSpec(t);
      var r := TrimEnd(t);
      assert s[..|r|] == t[..|r|];
      forall i | |r| <= i < |s| ensures IsWs(s[i]) {
        if i < |t| {
          assert s[i] == t[i];
        }
      }
    }
  }

  /** Dropping trailing semicolons removes a suffix made only of semicolons and keeps the rest,
      which does not end with one. */
  lemma {:induction false} DropTrailingSemicolonsSpec(s: string)
    ensures var r := DropTrailingSemicolons(s);
      && |r| <= |s| && r == s[..|r|] && (r == [] || r[|r| - 1] != ';')
      && forall i | |r| <= i < |s| :: s[i] == ';'
  {
    if s != [] && s[|s| - 1] == ';' {
      var t := s[..|s| - 1];
      DropTrailingSemicolonsSpec(t);
      var r := DropTrailingSemicolons(t);
      assert s[..|r|] == t[..|r|];
      forall i | |r| <= i < |s| ensures s[i] == ';' {
        if i < |t| {
          assert s[i] == t[i];
        }
      }
    }
  }

  /** The three replacements of `sanitizeCode`, in order. */
  function Clean(code: string): string
  {
    DropTrailingSemicolons(TrimEnd(TrimStart(StripFences(code))))
  }

  /** `sanitizeCode(code, fallback)`: an empty answer, or one that cleans to nothing, gives the fallback. */
  function SanitizeCode(code: string, fallback: string): string
  {
    if code == "" then fallback
    else
      var cleaned := Clean(code);
      if cleaned == "" then fallback else cleaned
  }

  lemma FencePrefixes(s: string)
    ensures HasPrefixAt(s, 0, "```javascript") ==> HasPrefixAt(s, 0, Fence)
    ensures HasPrefixAt(s, 0, "```js") ==> HasPrefixAt(s, 0, Fence)
  {
    if HasPrefixAt(s, 0, "```javascript") {
      assert s[..3] == s[..13][..3];
    }
    if HasPrefixAt(s, 0, "```js") {
      assert s[..3] == s[..5][..3];
    }
  }

  /** A character that does not start a fence is kept. */
  lemma KeptHead(s: string)
    requires s != [] && !HasPrefixAt(s, 0, Fence)
    ensures StripFences(s) == [s[0]] + StripFences(s[1..])
  {
    FencePrefixes(s);
  }

  /** A kept backquote is never followed by two kept backquotes. */
  lemma KeptBackquote(s: string)
    requires s != [] && s[0] == '`' && !HasPrefixAt(s, 0, Fence)
    ensures var o := StripFences(s[1..]); |o| < 2 || o[0] != '`' || o[1] != '`'
  {
    var t := s[1..];
    if |s| == 1 {
      assert t == [];
    } else if s[1] != '`' {
      assert !HasPrefixAt(t, 0, Fence) by { assert t[0] != '`'; }
      KeptHead(t);
    } else if |s| == 2 {
      assert !HasPrefixAt(t, 0, Fence);
      KeptHead(t);
      assert t[1..] == [];
    } else {
      assert s[2] != '`' by { assert s[..3] != Fence; }
      assert !HasPrefixAt(t, 0, Fence) by { assert t[1] != '`'; }
      KeptHead(t);
      var u := t[1..];
      assert !HasPrefixAt(u, 0, Fence) by { assert u[0] == s[2]; }
      KeptHead(u);
    }
  }

  lemma {:induction false} StripFencesNoFence(s: string)
    ensures NoFence(StripFences(s))
    decreases |s|
  {
    if HasPrefixAt(s, 0, "```javascript") {
      StripFencesNoFence(s[13..]);
    } else if HasPrefixAt(s, 0, "```js") {
      StripFencesNoFence(s[5..]);
    } else if HasPrefixAt(s, 0, Fence) {
      StripFencesNoFence(s[3..]);
    } else if s != [] {
      KeptHead(s);
      var o' := StripFences(s[1..]);
      var o := StripFences(s);
      StripFencesNoFence(s[1..]);
      forall i | 0 <= i <= |o| ensures !HasPrefixAt(o, i, Fence) {
        if i > 0 && i + 3 <= |o| {
          assert o[i..i + 3] == o'[i - 1..i + 2];
          assert !HasPrefixAt(o', i - 1, Fence);
        } else if i == 0 && s[0] == '`' && 3 <= |o| {
          KeptBackquote(s);
          assert o[1] == o'[0] && o[2] == o'[1];
        }
      }
    }
  }

  /** Text without a fence passes through the fence removal unchanged. */
  lemma {:induction false} StripFencesKeepsFenceFree(s: string)
    requires NoFence(s)
    ensures StripFences(s) == s
    decreases |s|
  {
    if s != [] {
      assert !HasPrefixAt(s, 0, Fence);
      KeptHead(s);
      NoFenceSlice(s, 1, |s|);
      assert s[1..|s|] == s[1..];
      StripFencesKeepsFenceFree(s[1..]);
    }
  }

  lemma NoFenceSlice(s: string, a: nat, b: nat)
    requires a <= b <= |s| && NoFence(s)
    ensures NoFence(s[a..b])
  {
    var t := s[a..b];
    forall i | 0 <= i <= |t| ensures !HasPrefixAt(t, i, Fence) {
      if HasPrefixAt(t, i, Fence) {
        forall j | 0 <= j < |Fence| ensures s[a + i + j] == Fence[j] {
          assert t[i..i + |Fence|][j] == t[i + j];
        }
        assert s[a + i..a + i + |Fence|] == Fence;
        assert HasPrefixAt(s, a + i, Fence);
      }
    }
  }

  /** `r` is `f` less some leading whitespace and some trailing whitespace and semicolons. */
  ghost predicate TrimmedFrom(r: string, f: string)
  {
    exists i, j | 0 <= i <= j <= |f| :: r == f[i..j] &&
      (forall k | 0 <= k < i :: IsWs(f[k])) &&
      (forall k | j <= k < |f| :: IsWs(f[k]) || f[k] == ';')
  }

  /** The cleaned text has no fence, does not start with whitespace and does not end with `;`. */
  lemma CleanShape(code: string)
    ensures var c := Clean(code);
      NoFence(c) && (c != [] ==> !IsWs(c[0]) && c[|c| - 1] != ';')
  {
    var f := StripFences(code);
    StripFencesNoFence(code);
    var a := TrimStart(f);
    TrimStartSpec(f);
    NoFenceSlice(f, |f| - |a|, |f|);
    assert f[|f| - |a|..|f|] == a;
    var b := TrimEnd(a);
    TrimEndSpec(a);
    NoFenceSlice(a, 0, |b|);
    assert a[0..|b|] == b;
    var c := DropTrailingSemicolons(b);
    DropTrailingSemicolonsSpec(b);
    NoFenceSlice(b, 0, |c|);
    assert b[0..|c|] == c;
    if c != [] {
      assert c[0] == b[0] == a[0];
    }
  }

  /** The cleaned text is the fence-free text less leading whitespace and trailing whitespace and `;`. */
  lemma CleanTrimmed(code: string)
    ensures TrimmedFrom(Clean(code), StripFences(code))
  {
    var f := StripFences(code);
    var a := TrimStart(f);
    TrimStartSpec(f);
    var b := TrimEnd(a);
    TrimEndSpec(a);
    var c := DropTrailingSemicolons(b);
    DropTrailingSemicolonsSpec(b);
    var i, j := |f| - |a|, |f| - |a| + |c|;
    assert c == f[i..j];
    forall k | j <= k < |f| ensures IsWs(f[k]) || f[k] == ';' {
      if k < i + |b| {
        assert f[k] == b[k - i];
      } else {
        assert f[k] == a[k - i];
      }
    }
    assert TrimmedFrom(c, f);
  }

  /** What `sanitizeCode` guarantees: the fallback exactly when the answer is empty or cleans to
      nothing, and otherwise a text without code fences, without leading whitespace and not
      ending in a semicolon, which is the answer with its fences removed and then cut down only by
      leading whitespace and by trailing whitespace and semicolons. */
  lemma SanitizeCodeSpec(code: string, fallback: string)
    ensures var r := SanitizeCode(code, fallback);
      && (code == "" || Clean(code) == "" ==> r == fallback)
      && (code != "" && Clean(code) != "" ==>
            && r != "" && NoFence(r) && !IsWs(r[0]) && r[|r| - 1] != ';'
            && TrimmedFrom(r, StripFences(code)))
  {
    CleanShape(code);
    CleanTrimmed(code);
  }

  // ---------------------------------------------------------------------------
  // Retry policy
  // ---------------------------------------------------------------------------

  const MaxRetries: nat := 3
  const BaseWaitTime: nat := 10000
  const DefaultMaxConcurrent: nat := 2

  function Pow2(k: nat): nat
  {
    if k == 0 then 1 else 2 * Pow2(k - 1)
  }

  /** `baseWaitTime * Math.pow(2, retryCount)` milliseconds. */
  function BackoffWait(retryCount: nat): nat
  {
    BaseWaitTime * Pow2(retryCount)
  }

  datatype ErrorAction = RetryAfter(waitMs: nat) | Rethrow | KeepOriginal

  /** The decision `handleError` takes: what a failed call with this HTTP status leads to. */
  function ErrorPolicy(status: int, retryCount: nat): ErrorAction
  {
    if status == 429 && retryCount < MaxRetries then RetryAfter(BackoffWait(retryCount))
    else if status == 401 then Rethrow
    else KeepOriginal
  }

  /** Rate limiting retries three times, after 10, 20 and 40 seconds; an authentication failure
      is rethrown; anything else, including a fourth rate-limit answer, keeps the original. */
  lemma ErrorPolicySpec(status: int, retryCount: nat)
    ensures ErrorPolicy(status, retryCount).RetryAfter? <==> status == 429 && retryCount < 3
    ensures ErrorPolicy(status, retryCount).Rethrow? <==> status == 401
    ensures status == 429 && retryCount == 0 ==> ErrorPolicy(status, retryCount) == RetryAfter(10000)
    ensures status == 429 && retryCount == 1 ==> ErrorPolicy(status, retryCount) == RetryAfter(20000)
    ensures status == 429 && retryCount == 2 ==> ErrorPolicy(status, retryCount) == RetryAfter(40000)
  {
    assert Pow2(1) == 2;
    assert Pow2(2) == 4;
  }

  // ---------------------------------------------------------------------------
  // evolveFunction
  // ---------------------------------------------------------------------------

  /** The service's answer to one chat call: the message content ("" when absent), or an error status. */
  datatype Response = Completion(content: string) | Failure(status: int)

  /** How a call to `evolveFunction` ends: with a text, with an exception, or waiting in the
      limiter's queue for a slot that, in a sequential run, nobody releases. */
  datatype EvolveOutcome = Returned(code: string) | Threw(message: string) | Parked

  const NameError := "Function name must be a non-empty string"
  const AuthError := "Invalid API key. Please check your GROQ_API_KEY environment variable."

  /** Everything `evolveFunction` reads and writes: the cache, its counters, the limiter, and the
      number of service calls made so far. */
  datatype EvolverState = EvolverState(
    cache: map<string, string>,
    cacheHits: nat,
    cacheMisses: nat,
    limiter: LimiterState,
    calls: nat)

  /** The `finally` block: give the limiter slot back. */
  function Released(st: EvolverState): EvolverState
    requires st.limiter.running >= 1
  {
    st.(limiter := ReleaseStep(st.limiter).0)
  }

  /** The body of the `try` once the service answered: an empty answer keeps the original uncached;
      otherwise the sanitized answer is cached and returned, or the original when the rewrite is only
      cosmetic. Only the cache changes. */
  function Answered(st: EvolverState, body: string, content: string): (res: (EvolverState, EvolveOutcome))
    ensures res.0 == st.(cache := res.0.cache) && res.1.Returned?
    ensures res.0.cache == st.cache || res.0.cache == st.cache[body := res.1.code]
  {
    if content == "" then (st, Returned(body))
    else
      var code := SanitizeCode(content, body);
      if IsCosmeticChange(body, code) then (st.(cache := st.cache[body := body]), Returned(body))
      else (st.(cache := st.cache[body := code]), Returned(code))
  }

  /** `evolveFunction(name, body, retryCount)` as a state transformer. The slot taken before the
      call is given back on every way out, except while a retry is still waiting for a slot of its own. */
  function Evolve(service: nat -> Response, st: EvolverState, name: string, body: string, retryCount: nat)
    : (res: (EvolverState, EvolveOutcome))
    requires Inv(st.limiter)
    ensures Inv(res.0.limiter) && res.0.limiter.maxConcurrent == st.limiter.maxConcurrent
    ensures !res.1.Parked? ==> res.0.limiter == st.limiter
    ensures res.1.Parked? ==>
              res.0.limiter.running == res.0.limiter.maxConcurrent &&
              res.0.limiter.queue == st.limiter.queue + [res.0.cacheMisses]
    decreases MaxRetries - retryCount, 1
  {
    if name == "" then (st, Threw(NameError))
    else if body == "" then (st, Returned(body))
    else if body in st.cache then (st.(cacheHits := st.cacheHits + 1), Returned(st.cache[body]))
    else
      var st1 := st.(cacheMisses := st.cacheMisses + 1);
      var (lim, granted) := AcquireStep(st1.limiter, st1.cacheMisses);
      if !granted then (st1.(limiter := lim), Parked)
      else
        var st2 := st1.(limiter := lim, calls := st1.calls + 1);
        match service(st1.calls)
        case Completion(content) =>
          var (st3, out) := Answered(st2, body, content);
          (Released(st3), out)
        case Failure(status) =>
          var (st3, out) := AfterError(service, st2, name, body, status, retryCount);
          if out.Parked? then (st3, Parked) else (Released(st3), out)
  }

  /** `handleError`, entered with the slot still held: a rate-limit answer retries the whole call
      (after the backoff wait), an authentication failure throws, anything else keeps the original. */
  function AfterError(service: nat -> Response, st: EvolverState, name: string, body: string, status: int, retryCount: nat)
    : (res: (EvolverState, EvolveOutcome))
    requires Inv(st.limiter)
    ensures Inv(res.0.limiter) && res.0.limiter.maxConcurrent == st.limiter.maxConcurrent
    ensures !res.1.Parked? ==> res.0.limiter == st.limiter
    ensures res.1.Parked? ==>
              res.0.limiter.running == res.0.limiter.maxConcurrent &&
              res.0.limiter.queue == st.limiter.queue + [res.0.cacheMisses]
    decreases MaxRetries - retryCount, 0
  {
    match ErrorPolicy(status, retryCount)
    case RetryAfter(_) => Evolve(service, st, name, body, retryCount + 1)
    case Rethrow => (st, Threw(AuthError))
    case KeepOriginal => (st, Returned(body))
  }

  /** A name that is empty is rejected; an empty body comes back unchanged; neither touches any state. */
  lemma EvolveGuards(service: nat -> Response, st: EvolverState, name: string, body: string, retryCount: nat)
    requires Inv(st.limiter)
    ensures name == "" ==> Evolve(service, st, name, body, retryCount) == (st, Threw(NameError))
    ensures name != "" && body == "" ==> Evolve(service, st, name, body, retryCount) == (st, Returned(""))
  {
  }

  /** A cached body short-circuits: the cached text comes back, only the hit counter moves, no call is made. */
  lemma CacheHitShortCircuit(service: nat -> Response, st: EvolverState, name: string, body: string, retryCount: nat)
    requires Inv(st.limiter) && name != "" && body != "" && body in st.cache
    ensures Evolve(service, st, name, body, retryCount) ==
            (st.(cacheHits := st.cacheHits + 1), Returned(st.cache[body]))
  {
  }

  /** One attempt on a missed body, branch by branch: it waits in the queue when no slot is free;
      otherwise it makes call number `st.calls` and the answer decides the rest. */
  lemma EvolveMissUnfold(service: nat -> Response, st: EvolverState, name: string, body: string, retryCount: nat)
    requires Inv(st.limiter) && name != "" && body != "" && body !in st.cache
    ensures var st1 := st.(cacheMisses := st.cacheMisses + 1);
      var st2 := st1.(limiter := st.limiter.(running := st.limiter.running + 1), calls := st.calls + 1);
      var res := Evolve(service, st, name, body, retryCount);
      && (st.limiter.running >= st.limiter.maxConcurrent ==>
            res == (st1.(limiter := st.limiter.(queue := st.limiter.queue + [st1.cacheMisses])), Parked))
      && (st.limiter.running < st.limiter.maxConcurrent ==>
            Inv(st2.limiter) &&
            match service(st.calls)
            case Completion(content) =>
              var (st3, out) := Answered(st2, body, content);
              res == (Released(st3), out)
            case Failure(status) =>
              var (st3, out) := AfterError(service, st2, name, body, status, retryCount);
              res == (if out.Parked? then (st3, Parked) else (Released(st3), out)))
  {
  }

  /** Every attempt of a miss counts one miss and either makes one service call or waits in the
      queue; hits never move, and at most `MaxRetries + 1 - retryCount` calls are made (four for a
      fresh call). */
  lemma {:induction false} EvolveCallBudget(service: nat -> Response, st: EvolverState, name: string, body: string, retryCount: nat)
    requires Inv(st.limiter) && retryCount <= MaxRetries
    requires name != "" && body != "" && body !in st.cache
    ensures var (st', out) := Evolve(service, st, name, body, retryCount);
      && st'.cacheHits == st.cacheHits
      && st'.cacheMisses - st.cacheMisses == st'.calls - st.calls + (if out.Parked? then 1 else 0)
      && st.calls <= st'.calls <= st.calls + MaxRetries + 1 - retryCount
      && st.cacheMisses < st'.cacheMisses
    decreases MaxRetries - retryCount
  {
    EvolveMissUnfold(service, st, name, body, retryCount);
    var st2 := st.(cacheMisses := st.cacheMisses + 1,
                   limiter := st.limiter.(running := st.limiter.running + 1),
                   calls := st.calls + 1);
    if st.limiter.running < st.limiter.maxConcurrent {
      match service(st.calls)
      case Completion(content) =>
      case Failure(status) =>
        if ErrorPolicy(status, retryCount).RetryAfter? {
          EvolveCallBudget(service, st2, name, body, retryCount + 1);
        }
    }
  }

  /** A miss adds at most the entry for `body` to the cache and keeps every other entry. */
  lemma {:induction false} EvolveCacheGrowth(service: nat -> Response, st: EvolverState, name: string, body: string, retryCount: nat)
    requires Inv(st.limiter) && name != "" && body != "" && body !in st.cache
    ensures var st' := Evolve(service, st, name, body, retryCount).0;
      st'.cache - {body} == st.cache
    decreases MaxRetries - retryCount
  {
    EvolveMissUnfold(service, st, name, body, retryCount);
    var st2 := st.(cacheMisses := st.cacheMisses + 1,
                   limiter := st.limiter.(running := st.limiter.running + 1),
                   calls := st.calls + 1);
    if st.limiter.running < st.limiter.maxConcurrent {
      match service(st.calls)
      case Completion(content) =>
      case Failure(status) =>
        if ErrorPolicy(status, retryCount).RetryAfter? {
          EvolveCacheGrowth(service, st2, name, body, retryCount + 1);
        }
    }
  }

  /** No more cached bodies than misses counted. */
  ghost predicate CacheBounded(st: EvolverState)
  {
    |st.cache.Keys| <= st.cacheMisses
  }

  /** Every cached entry was paid for by a miss: a call keeps the number of cached bodies at most
      the number of misses counted (as it is for a new evolver, with nothing of either). */
  lemma EvolveCacheBound(service: nat -> Response, st: EvolverState, name: string, body: string, retryCount: nat)
    requires Inv(st.limiter) && retryCount <= MaxRetries && |st.cache| <= st.cacheMisses
    ensures var st' := Evolve(service, st, name, body, retryCount).0;
      |st'.cache| <= st'.cacheMisses && st.cacheHits <= st'.cacheHits && st.cacheMisses <= st'.cacheMisses
  {
    if name != "" && body != "" && body !in st.cache {
      EvolveCacheGrowth(service, st, name, body, retryCount);
      EvolveCallBudget(service, st, name, body, retryCount);
      var c' := Evolve(service, st, name, body, retryCount).0.cache;
      if body in c' {
        assert c' == st.cache[body := c'[body]];
      } else {
        assert c' == c' - {body};
      }
    }
  }

  /** Whenever the body ends up cached, the call returned exactly the cached text. */
  lemma {:induction false} EvolveReturnsWhatItCaches(service: nat -> Response, st: EvolverState, name: string, body: string, retryCount: nat)
    requires Inv(st.limiter) && name != "" && body != ""
    ensures var (st', out) := Evolve(service, st, name, body, retryCount);
      body in st'.cache ==> out == Returned(st'.cache[body])
    decreases MaxRetries - retryCount
  {
    if body !in st.cache {
      EvolveMissUnfold(service, st, name, body, retryCount);
      var st2 := st.(cacheMisses := st.cacheMisses + 1,
                     limiter := st.limiter.(running := st.limiter.running + 1),
                     calls := st.calls + 1);
      if st.limiter.running < st.limiter.maxConcurrent {
        match service(st.calls)
        case Completion(content) =>
        case Failure(status) =>
          if ErrorPolicy(status, retryCount).RetryAfter? {
            EvolveReturnsWhatItCaches(service, st2, name, body, retryCount + 1);
          }
      }
    }
  }

  /** Two calls for the same body: once the first has cached it, the second makes no call and
      returns the first call's result. */
  lemma SecondCallHitsCache(service: nat -> Response, st: EvolverState, name: string, name2: string, body: string)
    requires Inv(st.limiter) && name != "" && name2 != "" && body != ""
    ensures var (st1, out1) := Evolve(service, st, name, body, 0);
      body in st1.cache ==>
        var (st2, out2) := Evolve(service, st1, name2, body, 0);
        out2 == out1 && st2.calls == st1.calls && st2.cache == st1.cache
  {
    EvolveReturnsWhatItCaches(service, st, name, body, 0);
  }

  /** One answered attempt (no rate limiting): a cosmetic rewrite caches and returns the original,
      any other rewrite is cached and returned, an empty answer or a non-retried error returns the
      original without caching it, and an authentication failure throws. */
  lemma SingleAttempt(service: nat -> Response, st: EvolverState, name: string, body: string, retryCount: nat)
    requires Inv(st.limiter) && st.limiter.running < st.limiter.maxConcurrent
    requires name != "" && body != "" && body !in st.cache
    ensures var (st', out) := Evolve(service, st, name, body, retryCount);
      match service(st.calls)
      case Completion(content) =>
        if content == "" then out == Returned(body) && st'.cache == st.cache
        else
          var code := SanitizeCode(content, body);
          if IsCosmeticChange(body, code) then out == Returned(body) && st'.cache == st.cache[body := body]
          else out == Returned(code) && st'.cache == st.cache[body := code]
      case Failure(status) =>
        (status == 401 ==> out == Threw(AuthError) && st'.cache == st.cache) &&
        (status != 429 && status != 401 ==> out == Returned(body) && st'.cache == st.cache)
  {
    EvolveMissUnfold(service, st, name, body, retryCount);
  }

  /** With the default two slots and nothing else in flight, two rate-limit answers in a row leave
      the call holding both slots while its second retry waits in the queue for one of them. */
  lemma RetryChainParks(service: nat -> Response, st: EvolverState, name: string, body: string)
    requires st.limiter == LimiterState(DefaultMaxConcurrent, 0, [])
    requires name != "" && body != "" && body !in st.cache
    requires service(st.calls) == Failure(429) && service(st.calls + 1) == Failure(429)
    ensures var (st', out) := Evolve(service, st, name, body, 0);
      out == Parked && st'.calls == st.calls + 2 && st'.limiter.running == 2 && |st'.limiter.queue| == 1
  {
    EvolveMissUnfold(service, st, name, body, 0);
    var st1 := st.(cacheMisses := st.cacheMisses + 1, limiter := LimiterState(2, 1, []), calls := st.calls + 1);
    assert ErrorPolicy(429, 0).RetryAfter?;
    EvolveMissUnfold(service, st1, name, body, 1);
    var st2 := st1.(cacheMisses := st1.cacheMisses + 1, limiter := LimiterState(2, 2, []), calls := st1.calls + 1);
    assert ErrorPolicy(429, 1).RetryAfter?;
    EvolveMissUnfold(service, st2, name, body, 2);
  }

  // ---------------------------------------------------------------------------
  // The evolver object
  // ---------------------------------------------------------------------------

  datatype CacheStats = CacheStats(hits: nat, misses: nat, cachedEntries: nat)

  class CodeEvolver {
    var cache: map<string, string>
    var cacheHits: nat
    var cacheMisses: nat
    var calls: nat
    const limiter: ConcurrencyLimiter
    const service: nat -> Response

    function State(): EvolverState
      reads this, limiter
    {
      EvolverState(cache, cacheHits, cacheMisses, limiter.State(), calls)
    }

    /** The limiter's invariant, and every cached entry paid for by a miss. */
    ghost predicate Valid()
      reads this, limiter
    {
      limiter.Valid() && CacheBounded(State())
    }

    constructor (service: nat -> Response)
      ensures Valid() && fresh(limiter) && this.service == service
      ensures State() == EvolverState(map[], 0, 0, LimiterState(DefaultMaxConcurrent, 0, []), 0)
    {
      this.service := service;
      limiter := new ConcurrencyLimiter(DefaultMaxConcurrent);
      cache := map[];
      cacheHits, cacheMisses, calls := 0, 0, 0;
    }

    /** `getCacheStats` without the formatted hit rate: the two counters and the number of cached
        bodies, which never exceeds the number of misses. */
    function GetCacheStats(): (r: CacheStats)
      requires Valid()
      reads this, limiter
      ensures r == CacheStats(cacheHits, cacheMisses, |cache.Keys|)
      ensures r.cachedEntries <= r.misses
    {
      CacheStats(cacheHits, cacheMisses, |cache|)
    }

    method EvolveFunction(name: string, body: string, retryCount: nat) returns (out: EvolveOutcome)
      requires Valid()
      modifies this, limiter
      ensures Valid()
      ensures (State(), out) == Evolve(service, old(State()), name, body, retryCount)
      decreases MaxRetries - retryCount, 2
    {
      if name == "" {
        return Threw(NameError);
      }
      if body == "" {
        return Returned(body);
      }
      if body in cache {
        cacheHits := cacheHits + 1;
        return Returned(cache[body]);
      }
      out := EvolveMiss(name, body, retryCount);
    }

    /** The part of `evolveFunction` after a cache miss: count it, take a slot, call the service,
        and hand the answer or the error on; the slot is released on the way out. */
    method EvolveMiss(name: string, body: string, retryCount: nat) returns (out: EvolveOutcome)
      requires Valid() && name != "" && body != "" && body !in cache
      modifies this, limiter
      ensures Valid()
      ensures (State(), out) == Evolve(service, old(State()), name, body, retryCount)
      decreases MaxRetries - retryCount, 1
    {
      ghost var st := State();
      EvolveMissUnfold(service, st, name, body, retryCount);
      cacheMisses := cacheMisses + 1;
      var granted := limiter.Acquire(cacheMisses);
      if !granted {
        return Parked;
      }
      var response := service(calls);
      calls := calls + 1;
      ghost var st2 := State();
      assert st2 == st.(cacheMisses := st.cacheMisses + 1, limiter := st.limiter.(running := st.limiter.running + 1),
                        calls := st.calls + 1);
      match response
      case Completion(content) =>
        out := StoreAnswer(body, content);
        ghost var st3 := State();
        assert (st3, out) == Answered(st2, body, content);
        assert CacheBounded(st3) by {
          if cache != st2.cache {
            assert cache == st2.cache[body := out.code];
          }
        }
        var _ := limiter.Release();
        assert State() == Released(st3);
      case Failure(status) =>
        out := HandleError(status, name, body, retryCount);
        ghost var st3 := State();
        assert (st3, out) == AfterError(service, st2, name, body, status, retryCount);
        if !out.Parked? {
          var _ := limiter.Release();
          assert State() == Released(st3);
        }
    }

    method StoreAnswer(body: string, content: string) returns (out: EvolveOutcome)
      modifies this
      ensures (State(), out) == Answered(old(State()), body, content)
    {
      if content == "" {
        return Returned(body);
      }
      var code := SanitizeCode(content, body);
      if IsCosmeticChange(body, code) {
        cache := cache[body := body];
        return Returned(body);
      }
      cache := cache[body := code];
      return Returned(code);
    }

    method HandleError(status: int, name: string, body: string, retryCount: nat) returns (out: EvolveOutcome)
      requires Valid()
      modifies this, limiter
      ensures Valid()
      ensures (State(), out) == AfterError(service, old(State()), name, body, status, retryCount)
      decreases MaxRetries - retryCount, 0
    {
      match ErrorPolicy(status, retryCount)
      case RetryAfter(_) =>
        out := EvolveFunction(name, body, retryCount + 1);
      case Rethrow =>
        out := Threw(AuthError);
      case KeepOriginal =>
        out := Returned(body);
    }
  }
}
