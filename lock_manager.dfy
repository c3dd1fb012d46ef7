/** Mutual exclusion for the synchroniser: the human-operated lock flag in
    the settings sheet, and the document lock taken with exponential
    back-off.  Both share one three-minute budget counted from the start of
    the run. */
module LockManager {
  import opened Wrappers
  import opened JsString
  import opened Cells
  import opened Types
  import opened Gas
  import opened Configuration

  /** Whether a lock-cell value means "locked": a string is locked when,
      upper-cased and trimmed, it reads `ON`, `TRUE` or `1`; any other value
      is locked when it is truthy. */
  predicate IsLockValue(v: CellValue) {
    if v.Text? then LockWord(Trim(ToUpperCase(v.s))) else Truthy(v)
  }

  predicate LockWord(u: string) { u in LockWords }
  /** The strings that set the flag, once upper-cased and trimmed. */
  const LockWords: set<string> := {"ON", "TRUE", "1"}

  /** The lock flag as the script sees it at time `t`. */
  predicate LockedAt(shown: (string, int) -> CellValue, written: map<string, CellValue>, address: string, t: int) {
    IsLockValue(CellAt(shown, written, address, t))
  }

  /** Upper-casing twice is upper-casing once. */
  lemma UpperCaseIdempotent(s: string)
    ensures ToUpperCase(ToUpperCase(s)) == ToUpperCase(s)
  {
  }

  /** The flag ignores letter case and surrounding whitespace in strings. */
  lemma LockValueIgnoresCaseAndSpace(s: string)
    ensures IsLockValue(Text(ToUpperCase(s))) == IsLockValue(Text(s))
    ensures IsLockValue(Text(Trim(s))) == IsLockValue(Text(s))
  {
    UpperCaseIdempotent(s);
    UpperTrimCommute(s);
    UpperTrimCommute(Trim(s));
    TrimOfTrimmed(Trim(s));
  }

  /** Values other than strings lock exactly when they are truthy: the
      boolean `true` and every non-zero number lock, while `false`, `0`, the
      empty string and an empty cell do not. */
  lemma LockValueOfNonStrings(v: CellValue)
    ensures !v.Text? ==> (IsLockValue(v) <==> Truthy(v))
    ensures IsLockValue(Boolean(true)) && !IsLockValue(Boolean(false))
    ensures IsLockValue(Number(1.0)) && IsLockValue(Number(2.0)) && !IsLockValue(Number(0.0))
    ensures !IsLockValue(Text("")) && !IsLockValue(Null) && !IsLockValue(Undefined)
  {
    TrimOfTrimmed("");
  }

  /** Upper-casing commutes with slicing. */
  lemma UpperSlice(s: string, a: nat, b: nat)
    requires a <= b <= |s|
    ensures ToUpperCase(s[a..b]) == ToUpperCase(s)[a..b]
  {
  }

  /** Trimming and upper-casing commute, since upper-casing keeps every
      whitespace character and turns no other character into one. */
  lemma UpperTrimCommute(s: string)
    ensures ToUpperCase(Trim(s)) == Trim(ToUpperCase(s))
  {
    var u := ToUpperCase(s);
    var n := LeadingWhitespace(s);
    LeadingUpper(s);
    assert LeadingWhitespace(u) == n;
    var t := s[n..];
    UpperSlice(s, n, |s|);
    assert u[n..] == ToUpperCase(t);
    TrailingUpper(t);
    var m := TrailingStart(t);
    assert Trim(s) == t[..m];
    assert Trim(u) == ToUpperCase(t)[..m];
    UpperSlice(t, 0, m);
    assert t[0..m] == t[..m];
    assert ToUpperCase(t)[0..m] == ToUpperCase(t)[..m];
  }

  lemma {:induction false} LeadingUpper(s: string)
    ensures LeadingWhitespace(ToUpperCase(s)) == LeadingWhitespace(s)
    decreases |s|
  {
    if s != [] {
      var u := ToUpperCase(s);
      UpperSlice(s, 1, |s|);
      UpperWhitespace(s[0]);
      assert u[0] == UpperChar(s[0]);
      LeadingUpper(s[1..]);
      assert u[1..] == ToUpperCase(s[1..]);
    }
  }

  /** Upper-casing neither makes nor unmakes whitespace. */
  lemma UpperWhitespace(c: char)
    ensures IsWhitespace(UpperChar(c)) == IsWhitespace(c)
  {
  }

  lemma {:induction false} TrailingUpper(s: string)
    ensures TrailingStart(ToUpperCase(s)) == TrailingStart(s)
    decreases |s|
  {
    if s != [] {
      var u := ToUpperCase(s);
      UpperSlice(s, 0, |s| - 1);
      UpperWhitespace(s[|s| - 1]);
      assert u[|s| - 1] == UpperChar(s[|s| - 1]);
      assert s[0..|s| - 1] == s[..|s| - 1];
      TrailingUpper(s[..|s| - 1]);
      assert u[..|s| - 1] == ToUpperCase(s[..|s| - 1]);
    }
  }

  /** `flag` is the lock cell's reading over time: `flag(t)` is whether the
      cell means "locked" when read at time `t`. */
  ghost predicate ReadsFlag(config: Config, flag: int -> bool)
    reads config.settingsSheet`written
  {
    forall t {:trigger LockedAt(config.settingsSheet.shown, config.settingsSheet.written, config.lockCellAddress, t)} ::
      flag(t) == LockedAt(config.settingsSheet.shown, config.settingsSheet.written, config.lockCellAddress, t)
  }

  /** `isSheetLocked`: reads the lock cell at time `now` and classifies it.
      The `SpreadsheetApp.flush()` before the read has no effect here, as
      the script's own writes are visible at once. */
  method IsSheetLocked(config: Config, now: int, ghost flag: int -> bool) returns (locked: bool)
    requires ReadsFlag(config, flag)
    ensures locked == flag(now)
  {
    var value := config.settingsSheet.ValueAt(config.lockCellAddress, now);
    locked := IsLockValue(value);
    FlagAt(config, flag, now);
  }

  lemma FlagAt(config: Config, flag: int -> bool, t: int)
    requires ReadsFlag(config, flag)
    ensures flag(t) == IsLockValue(config.settingsSheet.ValueAt(config.lockCellAddress, t))
  {
    assert flag(t) == LockedAt(config.settingsSheet.shown, config.settingsSheet.written, config.lockCellAddress, t);
  }

  /** The back-off before retry `k` (from 0): 1 s doubling up to 30 s. */
  function Backoff(k: nat): (b: int)
    ensures InitialBackoffMs <= b <= MaxBackoffMs
  {
    if k == 0 then InitialBackoffMs
    else
      var prev := Backoff(k - 1);
      if prev * 2 < MaxBackoffMs then prev * 2 else MaxBackoffMs
  }

  function Pow2(k: nat): (p: nat)
    ensures p >= 1
  {
    if k == 0 then 1 else 2 * Pow2(k - 1)
  }

  /** The back-off in closed form: `min(1000 * 2^k, 30000)`; it reaches the
      cap at the sixth retry and stays there. */
  lemma {:induction false} BackoffClosedForm(k: nat)
    ensures Backoff(k) == if 1000 * Pow2(k) < 30000 then 1000 * Pow2(k) else 30000
    ensures k >= 5 ==> Backoff(k) == MaxBackoffMs
    ensures k > 0 ==> Backoff(k - 1) <= Backoff(k)
  {
    if k > 0 {
      BackoffClosedForm(k - 1);
    }
  }

  /** Time left of the budget, used to bound the waiting loops. */
  function Remaining(start: int, now: int): nat {
    if now - start >= MaxLockWaitMs then 0 else MaxLockWaitMs - (now - start)
  }

  /** How the wait for the sheet flag ends. */
  datatype SheetWait = SheetWait(released: bool, sleeps: nat, end: int)

  /** The lock flag of a sheet over time, as one function. */
  function LockFlag(config: Config): (flag: int -> bool)
    reads config.settingsSheet`written
    ensures ReadsFlag(config, flag)
  {
    var shown, written, address := config.settingsSheet.shown, config.settingsSheet.written, config.lockCellAddress;
    t => LockedAt(shown, written, address, t)
  }

  /** `waitForSheetLock` from time `now`, after `k` sleeps, for a flag that
      reads `locked(t)` at time `t`: check the flag; if set, give up once the
      budget is spent, otherwise sleep `Backoff(k)` and check again. */
  function WaitOutcome(locked: int -> bool, start: int, now: int, k: nat): (w: SheetWait)
    ensures w.sleeps >= k && w.end >= now
    decreases Remaining(start, now)
  {
    if !locked(now) then SheetWait(true, k, now)
    else if now - start >= MaxLockWaitMs then SheetWait(false, k, now)
    else WaitOutcome(locked, start, now + Backoff(k), k + 1)
  }

  /** The wait gives up only on a set flag once the budget is spent; when it
      returns the flag was seen clear; a clear flag costs no sleep; and it
      ends less than one maximal back-off after the budget. */
  lemma {:induction false} WaitOutcomeMeaning(locked: int -> bool, start: int, now: int, k: nat)
    requires now - start < MaxLockWaitMs + MaxBackoffMs
    ensures var w := WaitOutcome(locked, start, now, k);
      && (!w.released ==> locked(w.end) && w.end - start >= MaxLockWaitMs)
      && (w.released ==> !locked(w.end))
      && (!locked(now) ==> w == SheetWait(true, k, now))
      && w.end - start < MaxLockWaitMs + MaxBackoffMs
    decreases Remaining(start, now)
  {
    if locked(now) && now - start < MaxLockWaitMs {
      WaitOutcomeMeaning(locked, start, now + Backoff(k), k + 1);
    }
  }

  /** A set flag, within the budget, costs one sleep of `Backoff(k)`. */
  lemma WaitStep(locked: int -> bool, start: int, now: int, k: nat)
    requires locked(now) && now - start < MaxLockWaitMs
    ensures WaitOutcome(locked, start, now, k) == WaitOutcome(locked, start, now + Backoff(k), k + 1)
  {
  }

  /** `waitForSheetLock`: returns once the flag is clear, sleeping 1 s,
      2 s, 4 s ... (at most 30 s) between checks, and fails when the flag is
      still set once three minutes have passed since `startTime`. */
  method WaitForSheetLock(config: Config, startTime: int, now: int, ghost flag: int -> bool) returns (r: Outcome<Error>, later: int)
    requires ReadsFlag(config, flag)
    ensures var w := WaitOutcome(flag, startTime, now, 0);
      && r == (if w.released then Pass else Fail(SheetLockTimeout))
      && later == w.end
  {
    ghost var w := WaitOutcome(flag, startTime, now, 0);
    later := now;
    var backoff := InitialBackoffMs;
    ghost var k: nat := 0;
    var locked := IsSheetLocked(config, later, flag);
    while locked
      invariant backoff == Backoff(k)
      invariant WaitOutcome(flag, startTime, later, k) == w
      invariant locked == flag(later)
      decreases Remaining(startTime, later)
    {
      if later - startTime >= MaxLockWaitMs {
        return Fail(SheetLockTimeout), later;
      }
      WaitStep(flag, startTime, later, k);
      later := later + backoff;
      backoff := if backoff * 2 < MaxBackoffMs then backoff * 2 else MaxBackoffMs;
      k := k + 1;
      locked := IsSheetLocked(config, later, flag);
    }
    return Pass, later;
  }

  /** How the attempts to take the document lock end: whether one succeeded,
      the timeout passed to each `tryLock`, and the time at the end. */
  datatype LockTry = LockTry(acquired: bool, timeouts: seq<int>, end: int)

  /** `tryLockWithExponentialBackoff` from time `now`, after `k` failed
      attempts, the next `tryLock` being the lock's attempt number `attempt`:
      while the budget lasts, try with the smaller of the time left and the
      back-off; a failed try waits out its timeout, then the script sleeps
      the back-off. */
  function TryOutcome(grants: nat -> bool, attempt: nat, start: int, now: int, k: nat): (t: LockTry)
    ensures t.end >= now
    decreases Remaining(start, now)
  {
    if now - start >= MaxLockWaitMs then LockTry(false, [], now)
    else if grants(attempt) then LockTry(true, [TryWait(start, now, k)], now)
    else
      var rest := TryOutcome(grants, attempt + 1, start, now + TryWait(start, now, k) + Backoff(k), k + 1);
      LockTry(rest.acquired, [TryWait(start, now, k)] + rest.timeouts, rest.end)
  }

  /** The `tryLock` timeout at time `now` after `k` failed attempts: the
      smaller of the time left and the back-off. */
  function TryWait(start: int, now: int, k: nat): (w: int)
    ensures w <= Backoff(k) && w <= MaxLockWaitMs - (now - start)
    ensures now - start < MaxLockWaitMs ==> 0 < w
  {
    var remaining := MaxLockWaitMs - (now - start);
    if remaining < Backoff(k) then remaining else Backoff(k)
  }

  /** The attempts stop at the first granted one and only then succeed; every
      timeout is positive, within the budget left and at most one back-off;
      a failure comes only once the budget is spent; and the attempts end
      at most one maximal back-off after the budget. */
  lemma {:induction false} TryOutcomeMeaning(grants: nat -> bool, attempt: nat, start: int, now: int, k: nat)
    requires now - start <= MaxLockWaitMs + MaxBackoffMs
    ensures var t := TryOutcome(grants, attempt, start, now, k);
      && (t.acquired <==> |t.timeouts| > 0 && grants(attempt + |t.timeouts| - 1))
      && (forall i :: attempt <= i < attempt + |t.timeouts| - 1 ==> !grants(i))
      && (forall i :: 0 <= i < |t.timeouts| ==> 0 < t.timeouts[i] <= MaxBackoffMs && t.timeouts[i] <= MaxLockWaitMs - (now - start))
      && (!t.acquired ==> t.end - start >= MaxLockWaitMs)
      && (now - start < MaxLockWaitMs && grants(attempt) ==> t == LockTry(true, t.timeouts, now) && |t.timeouts| == 1)
      && t.end - start <= MaxLockWaitMs + MaxBackoffMs
    decreases Remaining(start, now)
  {
    if now - start < MaxLockWaitMs && !grants(attempt) {
      TryOutcomeMeaning(grants, attempt + 1, start, now + TryWait(start, now, k) + Backoff(k), k + 1);
    }
  }

  /** The attempts already made, followed by those still to come. */
  function After(tried: seq<int>, rest: LockTry): LockTry {
    LockTry(rest.acquired, tried + rest.timeouts, rest.end)
  }

  /** One refused attempt with timeout `wait`, then the back-off, after which
      the time is `next`. */
  lemma TryRefused(grants: nat -> bool, attempt: nat, start: int, now: int, k: nat, tried: seq<int>, wait: int, next: int)
    requires now - start < MaxLockWaitMs && !grants(attempt)
    requires wait == TryWait(start, now, k)
    requires next == now + wait + Backoff(k)
    ensures After(tried, TryOutcome(grants, attempt, start, now, k))
         == After(tried + [wait], TryOutcome(grants, attempt + 1, start, next, k + 1))
  {
    var rest := TryOutcome(grants, attempt + 1, start, next, k + 1);
    assert tried + ([wait] + rest.timeouts) == (tried + [wait]) + rest.timeouts;
  }

  /** `tryLockWithExponentialBackoff`, called at time `now`. */
  method TryLockWithExponentialBackoff(lock: DocumentLock, startTime: int, now: int) returns (success: bool, later: int)
    modifies lock
    ensures var t := TryOutcome(lock.grants, |old(lock.attempts)|, startTime, now, 0);
      && success == t.acquired
      && lock.attempts == old(lock.attempts) + t.timeouts
      && later == t.end
    ensures lock.held == (old(lock.held) || success)
    ensures lock.releases == old(lock.releases)
  {
    ghost var t := TryOutcome(lock.grants, |lock.attempts|, startTime, now, 0);
    ghost var attempt := |lock.attempts|;
    ghost var tried: seq<int> := [];
    assert [] + t.timeouts == t.timeouts;
    later := now;
    var backoff := InitialBackoffMs;
    ghost var k: nat := 0;
    while later - startTime < MaxLockWaitMs
      invariant backoff == Backoff(k)
      invariant lock.attempts == old(lock.attempts) + tried && attempt == |lock.attempts|
      invariant t == After(tried, TryOutcome(lock.grants, attempt, startTime, later, k))
      invariant lock.held == old(lock.held)
      invariant lock.releases == old(lock.releases)
      decreases Remaining(startTime, later)
    {
      var elapsed := later - startTime;
      var remaining := MaxLockWaitMs - elapsed;
      var wait := if remaining < backoff then remaining else backoff;
      assert wait == TryWait(startTime, later, k);
      assert old(lock.attempts) + (tried + [wait]) == (old(lock.attempts) + tried) + [wait];
      var ok, afterTry := lock.TryLock(wait, later);
      if ok {
        tried := tried + [wait];
        return true, afterTry;
      }
      TryRefused(lock.grants, attempt, startTime, later, k, tried, wait, afterTry + backoff);
      later := afterTry + backoff;
      tried := tried + [wait];
      attempt := attempt + 1;
      backoff := if backoff * 2 < MaxBackoffMs then backoff * 2 else MaxBackoffMs;
      k := k + 1;
    }
    assert tried + [] == tried;
    return false, later;
  }

  /** The `release` closure `acquireLockWithRetry` returns: it releases the
      document lock if the script still holds it. */
  class LockHandle {
    const lock: DocumentLock

    constructor (lock: DocumentLock)
      ensures this.lock == lock
    {
      this.lock := lock;
    }

    method Release()
      modifies lock
      ensures !lock.held
      ensures lock.releases == old(lock.releases) + (if old(lock.held) then 1 else 0)
      ensures lock.attempts == old(lock.attempts)
    {
      var held := lock.HasLock();
      if held {
        lock.ReleaseLock();
      }
    }
  }

  /** Releasing twice releases once: the second call finds no lock held. */
  method ReleaseTwice(handle: LockHandle)
    modifies handle.lock
    ensures !handle.lock.held
    ensures handle.lock.releases == old(handle.lock.releases) + (if old(handle.lock.held) then 1 else 0)
  {
    handle.Release();
    handle.Release();
  }

  /** `acquireLockWithRetry`: fails when no document lock is available, or
      when no attempt succeeds within the budget; otherwise returns the
      handle that releases it. */
  method AcquireLockWithRetry(lock: Option<DocumentLock>, startTime: int, now: int) returns (r: Result<LockHandle, Error>, later: int)
    modifies if lock.Some? then {lock.value} else {}
    ensures lock.None? ==> r == Failure(LockUnavailable) && later == now
    ensures lock.Some? ==>
      var t := TryOutcome(lock.value.grants, |old(lock.value.attempts)|, startTime, now, 0);
      && (r.Success? <==> t.acquired)
      && (r.Failure? ==> r.error == LockTimeout)
      && (r.Success? ==> r.value.lock == lock.value && lock.value.held && fresh(r.value))
      && (r.Failure? ==> lock.value.held == old(lock.value.held))
      && lock.value.attempts == old(lock.value.attempts) + t.timeouts
      && later == t.end
      && lock.value.releases == old(lock.value.releases)
  {
    if lock.None? {
      return Failure(LockUnavailable), now;
    }
    var success;
    success, later := TryLockWithExponentialBackoff(lock.value, startTime, now);
    if !success {
      return Failure(LockTimeout), later;
    }
    var handle := new LockHandle(lock.value);
    return Success(handle), later;
  }
}
