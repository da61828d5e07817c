/**
 The keeper's boot probe: a bounded retry loop with exponential backoff. The probes' outcomes are
 a parameter, one for every attempt, so that what is proved holds of every network behaviour.
 */
module BootRetry {
  import opened Text
  import opened Powers

  const MAX_DELAY_MS := 10000
  const BOOT_ATTEMPTS := 5
  const BOOT_BACKOFF_MS := 500

  /** What a failed probe rejects with: nothing, or something with a message. */
  datatype BootError = NoError | Message(text: string)

  datatype Probe = Answered(publicChainId: int, privateChainId: int) | Failed(error: BootError)

  datatype Outcome = ChainIds(publicChainId: int, privateChainId: int) | Thrown(error: BootError) | Exhausted

  predicate Contains(s: string, part: string) { exists i: nat | i <= |s| :: At(s, i, part) }

  /** Messages that are worth a retry. */
  predicate IsTransient(e: BootError) {
    match e
    case NoError => false
    case Message(text) =>
      var msg := Lower(text);
      || Contains(msg, "fetch failed") || Contains(msg, "http request failed")
      || Contains(msg, "timeout after") || Contains(msg, "network error") || Contains(msg, "socket hang up")
      || Contains(msg, "enotfound") || Contains(msg, "eai_again")
      || Contains(msg, "econnreset") || Contains(msg, "econnrefused")
      || Contains(msg, "etimedout") || Contains(msg, "ehostunreach") || Contains(msg, "enetunreach")
      || Contains(msg, "status: 502") || Contains(msg, "status: 503") || Contains(msg, "status: 504")
  }

  function Delay(base: nat, attempt: nat): nat
    requires attempt >= 1
  {
    var d := base * Pow2(attempt - 1);
    if d < MAX_DELAY_MS then d else MAX_DELAY_MS
  }

  /** The sleeps between the first `n + 1` attempts. */
  function Delays(base: nat, n: nat): seq<nat> {
    if n == 0 then [] else Delays(base, n - 1) + [Delay(base, n)]
  }

  function Total(sleeps: seq<nat>): nat {
    if sleeps == [] then 0 else Total(sleeps[..|sleeps| - 1]) + sleeps[|sleeps| - 1]
  }

  predicate IsTransientFailure(p: Probe) { p.Failed? && IsTransient(p.error) }

  /** The attempt whose outcome is the loop's: all before it failed transiently, and it is not retried. */
  predicate Decides(probes: nat -> Probe, attempts: int, k: nat) {
    && 1 <= k <= attempts
    && (forall j: nat | 1 <= j < k :: IsTransientFailure(probes(j)))
    && (IsTransientFailure(probes(k)) ==> k == attempts)
  }

  method ProbeChainIdsWithRetry(probes: nat -> Probe, attempts: int, base: nat)
    returns (r: Outcome, sleeps: seq<nat>, made: nat)
    ensures attempts <= 0 ==> r == Exhausted && sleeps == [] && made == 0
    ensures attempts >= 1 ==>
      && Decides(probes, attempts, made) && sleeps == Delays(base, made - 1)
      && match probes(made) case Answered(x, y) => r == ChainIds(x, y) case Failed(e) => r == Thrown(e)
  {
    hide IsTransient, Delay;
    sleeps, made := [], 0;
    var attempt: nat := 1;
    while attempt <= attempts
      invariant attempt >= 1 && (if attempts >= 1 then attempt <= attempts else attempt == 1)
      invariant made == attempt - 1
      invariant forall j: nat | 1 <= j < attempt :: IsTransientFailure(probes(j))
      invariant sleeps == Delays(base, attempt - 1)
      decreases attempts - attempt
    {
      made := attempt;
      match probes(attempt) {
        case Answered(x, y) =>
          return ChainIds(x, y), sleeps, made;
        case Failed(e) =>
          if attempt >= attempts || !IsTransient(e) {
            return Thrown(e), sleeps, made;
          }
          sleeps := sleeps + [Delay(base, attempt)];
      }
      attempt := attempt + 1;
    }
    return Exhausted, sleeps, made;
  }

  /** Only one attempt can decide. */
  lemma DecidesOnce(probes: nat -> Probe, attempts: int, j: nat, k: nat)
    requires Decides(probes, attempts, j) && Decides(probes, attempts, k)
    ensures j == k
  {
    hide IsTransientFailure;
    assert j < k ==> IsTransientFailure(probes(j));
    assert k < j ==> IsTransientFailure(probes(k));
  }

  /**
   The loop succeeds exactly when some attempt answers after transient failures only; a structural
   error is thrown at once; and a transient one only by the last attempt.
   */
  lemma SucceedsExactly(probes: nat -> Probe, attempts: int, made: nat)
    requires Decides(probes, attempts, made)
    ensures probes(made).Answered? <==>
      exists k: nat | 1 <= k <= attempts ::
        probes(k).Answered? && forall j: nat | 1 <= j < k :: IsTransientFailure(probes(j))
    ensures forall k: nat | 1 <= k <= attempts && probes(k).Failed? && !IsTransient(probes(k).error)
        && (forall j: nat | 1 <= j < k :: IsTransientFailure(probes(j))) ::
          made == k
  {
    hide IsTransient;
    if probes(made).Answered? {
      assert 1 <= made <= attempts;
    }
    forall k: nat | 1 <= k <= attempts && !IsTransientFailure(probes(k))
        && forall j: nat | 1 <= j < k :: IsTransientFailure(probes(j))
      ensures made == k
    {
      assert Decides(probes, attempts, k);
      DecidesOnce(probes, attempts, made, k);
    }
  }

  // ---------------------------------------------------------------------------
  // Which failures are retried
  // ---------------------------------------------------------------------------

  /** The same text but for letters that are written as capitals. */
  predicate IsCasing(q: string, p: string) {
    |q| == |p| && forall k | 0 <= k < |p| ::
      if 'A' <= q[k] <= 'Z' then p[k] as int - 'a' as int == q[k] as int - 'A' as int else q[k] == p[k]
  }

  /** The message holds the phrase somewhere, in any case. */
  ghost predicate Says(text: string, phrase: string) {
    exists a: string, q: string, b: string :: text == a + q + b && IsCasing(q, phrase)
  }

  /** What an error message says when the network or an upstream server is not ready. */
  ghost predicate SaysNotReady(text: string) {
    || Says(text, "enotfound") || Says(text, "eai_again") || Says(text, "econnreset") || Says(text, "econnrefused")
    || Says(text, "etimedout") || Says(text, "ehostunreach") || Says(text, "enetunreach")
    || Says(text, "fetch failed") || Says(text, "http request failed") || Says(text, "timeout after")
    || Says(text, "network error") || Says(text, "socket hang up")
    || Says(text, "status: 502") || Says(text, "status: 503") || Says(text, "status: 504")
  }

  lemma ContainsSays(text: string)
    ensures forall p: string :: Contains(Lower(text), p) <==> Says(text, p)
  {
    hide Contains, Says;
    forall p: string ensures Contains(Lower(text), p) <==> Says(text, p) {
      if Contains(Lower(text), p) {
        ContainedIsSaid(text, p);
      }
      if Says(text, p) {
        SaidIsContained(text, p);
      }
    }
  }

  lemma ContainedIsSaid(text: string, p: string)
    requires Contains(Lower(text), p)
    ensures Says(text, p)
  {
    var i: nat :| i <= |text| && At(Lower(text), i, p);
    var q := text[i..i + |p|];
    assert text == text[..i] + q + text[i + |p|..];
    forall k | 0 <= k < |p| ensures p[k] == LowerChar(q[k]) {
      AtChar(Lower(text), i, p, k);
    }
    assert IsCasing(q, p);
  }

  lemma SaidIsContained(text: string, p: string)
    requires Says(text, p)
    ensures Contains(Lower(text), p)
  {
    var a: string, q: string, b: string :| text == a + q + b && IsCasing(q, p);
    forall k | 0 <= k < |p| ensures Lower(text)[|a| + k] == p[k] {
      assert text[|a| + k] == q[k];
    }
    assert At(Lower(text), |a|, p);
  }

  lemma TransientExactly(text: string)
    ensures IsTransient(Message(text)) <==> SaysNotReady(text)
  {
    hide Contains, Says;
    ContainsSays(text);
  }

  /**
   An attempt is followed by another one exactly when it is not the last and fails with a message that
   holds one of the fifteen phrases, anywhere and in any case.
   */
  lemma RetriedExactly(probes: nat -> Probe, attempts: int, made: nat, k: nat)
    requires Decides(probes, attempts, made) && 1 <= k <= made
    ensures k < made <==>
      && k < attempts && probes(k).Failed? && probes(k).error.Message? && SaysNotReady(probes(k).error.text)
  {
    hide SaysNotReady, IsTransient;
    NothingIsNotTransient();
    if probes(k).Failed? && probes(k).error.Message? {
      TransientExactly(probes(k).error.text);
    }
  }

  lemma NothingIsNotTransient()
    ensures !IsTransient(NoError)
  {
  }

  /** The sleep behind the `k`-th attempt doubles with every attempt, up to ten seconds. */
  lemma {:induction false} DelayAt(base: nat, n: nat, k: nat)
    requires 1 <= k <= n
    ensures |Delays(base, n)| == n
    ensures var d := base * Pow2(k - 1);
      Delays(base, n)[k - 1] == if d > 10_000 then 10_000 else d
  {
    DelaysLength(base, n - 1);
    if k < n {
      DelayAt(base, n - 1, k);
    }
  }

  lemma {:induction false} DelaysLength(base: nat, n: nat)
    ensures |Delays(base, n)| == n
  {
    if n > 0 {
      DelaysLength(base, n - 1);
    }
  }

  // ---------------------------------------------------------------------------
  // Time slept
  // ---------------------------------------------------------------------------

  lemma TotalAppend(sleeps: seq<nat>, d: nat)
    ensures Total(sleeps + [d]) == Total(sleeps) + d
  {
    assert (sleeps + [d])[..|sleeps|] == sleeps;
  }

  /** `n` sleeps take at most ten seconds each, and at most the uncapped geometric sum. */
  lemma {:induction false} SleepBound(base: nat, n: nat)
    ensures Total(Delays(base, n)) <= 10_000 * n
    ensures Total(Delays(base, n)) <= base * (Pow2(n) - 1)
  {
    if n > 0 {
      SleepBound(base, n - 1);
      TotalAppend(Delays(base, n - 1), Delay(base, n));
      GeometricStep(base, n);
    }
  }

  lemma GeometricStep(base: nat, n: nat)
    requires n > 0
    ensures base * (Pow2(n) - 1) == base * (Pow2(n - 1) - 1) + base * Pow2(n - 1)
  {
    var p: int := Pow2(n - 1);
    assert base * (2 * p - 1) == base * (p - 1) + base * p;
  }

  /** While no sleep is capped, the time slept is the geometric sum itself. */
  lemma {:induction false} SleepExact(base: nat, n: nat)
    requires n > 0 ==> base * Pow2(n - 1) <= 10_000
    ensures Total(Delays(base, n)) == base * (Pow2(n) - 1)
  {
    if n > 0 {
      if n > 1 {
        var p := Pow2(n - 2);
        assert base * (2 * p) == base * p + base * p;
      }
      SleepExact(base, n - 1);
      TotalAppend(Delays(base, n - 1), Delay(base, n));
      GeometricStep(base, n);
    }
  }

  /** With the boot call's numbers, all attempts but the last sleep 7.5 seconds together; no run sleeps longer. */
  lemma BootSleep(made: nat)
    requires 1 <= made <= BOOT_ATTEMPTS
    ensures Total(Delays(BOOT_BACKOFF_MS, made - 1)) <= 7500
    ensures made == 5 == BOOT_ATTEMPTS ==> Total(Delays(BOOT_BACKOFF_MS, made - 1)) == 7500
  {
    assert Pow2(3) == 8 && Pow2(4) == 16;
    SleepBound(BOOT_BACKOFF_MS, made - 1);
    Pow2Grows(made - 1, 4);
    if made == BOOT_ATTEMPTS {
      SleepExact(BOOT_BACKOFF_MS, 4);
    }
  }
}
