/** Scheduled jobs guarded by a Postgres advisory lock, run by any number of
    processes at once. A run is one call of the wrapped job, with a lock session
    of its own. */
module JobGuard {

  // ---------- the lock key ----------

  type byte = x: int | 0 <= x < 256

  const TWO_63 := 0x8000_0000_0000_0000
  const TWO_64 := 0x1_0000_0000_0000_0000

  function Unsigned(digits: seq<byte>): (n: nat)
    decreases |digits|
  {
    if digits == [] then 0 else 256 * Unsigned(digits[..|digits| - 1]) + digits[|digits| - 1]
  }

  /** `int.from_bytes(digits, "big", signed=True)` on eight bytes. */
  function SignedFromBytes(digits: seq<byte>): int
    requires |digits| == 8
  {
    if Unsigned(digits) < TWO_63 then Unsigned(digits) else Unsigned(digits) - TWO_64
  }

  function Power256(k: nat): nat {
    if k == 0 then 1 else 256 * Power256(k - 1)
  }

  function BytesOf(n: nat, k: nat): (digits: seq<byte>)
    ensures |digits| == k
    decreases k
  {
    if k == 0 then [] else BytesOf(n / 256, k - 1) + [n % 256]
  }

  function SignedToBytes(n: int): (digits: seq<byte>)
    requires -TWO_63 <= n < TWO_63
    ensures |digits| == 8
  {
    BytesOf(if n < 0 then n + TWO_64 else n, 8)
  }

  lemma {:induction false} UnsignedBelow(digits: seq<byte>)
    ensures Unsigned(digits) < Power256(|digits|)
    decreases |digits|
  {
    if digits != [] {
      UnsignedBelow(digits[..|digits| - 1]);
    }
  }

  lemma {:induction false} BytesOfUnsigned(digits: seq<byte>)
    ensures BytesOf(Unsigned(digits), |digits|) == digits
    decreases |digits|
  {
    if digits != [] {
      var n := |digits| - 1;
      BytesOfUnsigned(digits[..n]);
      var high := Unsigned(digits[..n]);
      assert (256 * high + digits[n]) / 256 == high && (256 * high + digits[n]) % 256 == digits[n];
      assert digits == digits[..n] + [digits[n]];
    }
  }

  lemma {:induction false} UnsignedOfBytes(n: nat, k: nat)
    requires n < Power256(k)
    ensures Unsigned(BytesOf(n, k)) == n
    decreases k
  {
    if k > 0 {
      UnsignedOfBytes(n / 256, k - 1);
      assert BytesOf(n, k)[..k - 1] == BytesOf(n / 256, k - 1);
    }
  }

  lemma EightBytes()
    ensures Power256(8) == TWO_64
  {
    assert Power256(4) == 0x1_0000_0000;
    assert Power256(5) == 0x100_0000_0000;
    assert Power256(6) == 0x1_0000_0000_0000;
    assert Power256(7) == 0x100_0000_0000_0000;
  }

  /** The first byte weighs most and carries the sign. */
  lemma BigEndian(d: seq<byte>)
    requires |d| == 8
    ensures SignedFromBytes(d)
         == (if d[0] >= 128 then d[0] as int - 256 else d[0] as int) * 0x100_0000_0000_0000
          + d[1] as int * 0x1_0000_0000_0000 + d[2] as int * 0x100_0000_0000 + d[3] as int * 0x1_0000_0000
          + d[4] as int * 0x100_0000 + d[5] as int * 0x1_0000 + d[6] as int * 0x100 + d[7] as int
  {
    var half := FirstFour(d);
    UnsignedLast(d, 8);
    UnsignedLast(d, 7);
    UnsignedLast(d, 6);
    UnsignedLast(d, 5);
    assert d[..8] == d;
    assert Unsigned(d) == half * 0x1_0000_0000 + d[4] as int * 0x100_0000 + d[5] as int * 0x1_0000 + d[6] as int * 0x100 + d[7] as int;
  }

  lemma FirstFour(d: seq<byte>) returns (n: int)
    requires |d| == 8
    ensures n == Unsigned(d[..4])
    ensures n == d[0] as int * 0x100_0000 + d[1] as int * 0x1_0000 + d[2] as int * 0x100 + d[3] as int
  {
    UnsignedLast(d, 4);
    UnsignedLast(d, 3);
    UnsignedLast(d, 2);
    UnsignedLast(d, 1);
    assert Unsigned(d[..0]) == 0;
    n := Unsigned(d[..4]);
  }

  lemma UnsignedLast(d: seq<byte>, k: nat)
    requires 1 <= k <= |d|
    ensures Unsigned(d[..k]) == 256 * Unsigned(d[..k - 1]) + d[k - 1] as int
  {
    assert d[..k][..k - 1] == d[..k - 1];
  }

  /** Eight-byte digests and signed 64-bit keys are in one-to-one correspondence. */
  lemma KeyOfDigest(digits: seq<byte>)
    requires |digits| == 8
    ensures -TWO_63 <= SignedFromBytes(digits) < TWO_63
    ensures SignedToBytes(SignedFromBytes(digits)) == digits
  {
    UnsignedBelow(digits);
    EightBytes();
    BytesOfUnsigned(digits);
  }

  lemma DigestOfKey(n: int)
    requires -TWO_63 <= n < TWO_63
    ensures SignedFromBytes(SignedToBytes(n)) == n
  {
    EightBytes();
    UnsignedOfBytes(if n < 0 then n + TWO_64 else n, 8);
  }

  /** `digest` is SHA-256 of the job id. */
  function AdvisoryKey(digest: string -> seq<byte>, job: string): int
    requires |digest(job)| >= 8
  {
    SignedFromBytes(digest(job)[..8])
  }

  /** Two jobs share a lock exactly when their digests begin with the same eight bytes. */
  lemma KeysCollide(digest: string -> seq<byte>, a: string, b: string)
    requires |digest(a)| >= 8 && |digest(b)| >= 8
    ensures AdvisoryKey(digest, a) == AdvisoryKey(digest, b) <==> digest(a)[..8] == digest(b)[..8]
  {
    KeyOfDigest(digest(a)[..8]);
    KeyOfDigest(digest(b)[..8]);
  }

  // ---------- runs and the lock table ----------

  datatype Outcome = Returned | Raised | Skipped | Died

  datatype Phase =
    | Connected              // the lock session is open, nothing asked yet
    | Refused                // the lock was taken; about to return
    | Locked                 // the lock is ours, the body not entered
    | InBody                 // the job itself runs
    | Unlocking(end: Outcome)
    | Dead                   // the process is gone, its session not yet noticed
    | Finished(outcome: Outcome)

  datatype Run = Run(job: string, phase: Phase)

  /** `locks` maps an advisory key to the run whose session holds it. */
  datatype World = World(postgres: bool, runs: map<nat, Run>, locks: map<int, nat>)

  datatype Event =
    | Fire(run: nat, job: string)
    | TryLock(run: nat)
    | Enter(run: nat)
    | Leave(run: nat, end: Outcome)
    | Unlock(run: nat)
    | Skip(run: nat)
    | Kill(run: nat)
    | Reap(run: nat)
    | LoseLock(run: nat)     // the lock session drops while its run goes on

  type KeyMap = string -> int

  function At(w: World, r: nat): Phase {
    if r in w.runs then w.runs[r].phase else Finished(Skipped)
  }

  function Move(w: World, r: nat, phase: Phase): World
    requires r in w.runs
  {
    w.(runs := w.runs[r := w.runs[r].(phase := phase)])
  }

  /** What is left of the lock table when a run's session ends. */
  function Release(locks: map<int, nat>, r: nat): map<int, nat> {
    map k <- locks | locks[k] != r :: locks[k]
  }

  /** Without advisory locks the job runs unguarded: it goes straight to its body
      and leaves without unlocking. */
  function Step(key: KeyMap, w: World, e: Event): World {
    match e
    case Fire(r, job) =>
      if r in w.runs then w else w.(runs := w.runs[r := Run(job, if w.postgres then Connected else InBody)])
    case TryLock(r) =>
      if At(w, r) != Connected then w
      else if key(w.runs[r].job) in w.locks then Move(w, r, Refused)
      else Move(w, r, Locked).(locks := w.locks[key(w.runs[r].job) := r])
    case Enter(r) =>
      if At(w, r) == Locked then Move(w, r, InBody) else w
    case Leave(r, end) =>
      if At(w, r) != InBody || !(end.Returned? || end.Raised?) then w
      else Move(w, r, if w.postgres then Unlocking(end) else Finished(end))
    case Unlock(r) =>
      if At(w, r).Unlocking? then Move(w, r, Finished(At(w, r).end)).(locks := Release(w.locks, r)) else w
    case Skip(r) =>
      if At(w, r) == Refused then Move(w, r, Finished(Skipped)) else w
    case Kill(r) =>
      if r !in w.runs || At(w, r).Finished? then w else Move(w, r, Dead)
    case Reap(r) =>
      if At(w, r) == Dead then Move(w, r, Finished(Died)).(locks := Release(w.locks, r)) else w
    case LoseLock(r) =>
      w.(locks := Release(w.locks, r))
  }

  function Steps(key: KeyMap, w: World, events: seq<Event>): World
    decreases |events|
  {
    if events == [] then w else Steps(key, Step(key, w, events[0]), events[1..])
  }

  function Idle(postgres: bool): World {
    World(postgres, map[], map[])
  }

  /** The assumption of the guard: a run's lock session lives as long as the run. */
  ghost predicate SessionsLive(events: seq<Event>) {
    forall e <- events :: !e.LoseLock?
  }

  predicate Holding(phase: Phase) {
    phase.Locked? || phase.InBody? || phase.Unlocking?
  }

  ghost predicate Overlap(key: KeyMap, w: World, r: nat, q: nat) {
    r != q && At(w, r) == InBody && At(w, q) == InBody && key(w.runs[r].job) == key(w.runs[q].job)
  }

  /** A run that is past the lock and before the unlock owns its key; a key is owned
      only by such a run, or by a dead one. */
  ghost predicate Guarded(key: KeyMap, w: World) {
    && w.postgres
    && (forall r <- w.runs | Holding(w.runs[r].phase) ::
          key(w.runs[r].job) in w.locks && w.locks[key(w.runs[r].job)] == r)
    && (forall k <- w.locks :: OwnedBy(key, w, k, w.locks[k]))
  }

  ghost predicate OwnedBy(key: KeyMap, w: World, k: int, r: nat) {
    r in w.runs && key(w.runs[r].job) == k && (Holding(w.runs[r].phase) || w.runs[r].phase.Dead?)
  }

  // ---------- exclusion over every run ----------

  lemma PlainStepKeepsGuard(key: KeyMap, w: World, e: Event)
    requires Guarded(key, w) && !e.LoseLock? && !e.TryLock? && !e.Unlock? && !e.Reap?
    ensures Guarded(key, Step(key, w, e))
  {
    var v := Step(key, w, e);
    assert v.locks == w.locks;
    forall k | k in v.locks ensures OwnedBy(key, v, k, v.locks[k]) {
      assert OwnedBy(key, w, k, w.locks[k]);
    }
  }

  lemma LockStepKeepsGuard(key: KeyMap, w: World, e: Event)
    requires Guarded(key, w) && (e.TryLock? || e.Unlock? || e.Reap?)
    ensures Guarded(key, Step(key, w, e))
  {
    var v := Step(key, w, e);
    forall k | k in v.locks ensures OwnedBy(key, v, k, v.locks[k]) {
      assert k in w.locks ==> OwnedBy(key, w, k, w.locks[k]);
    }
  }

  /** Every step but the loss of a session keeps the guard. */
  lemma StepKeepsGuard(key: KeyMap, w: World, e: Event)
    requires Guarded(key, w) && !e.LoseLock?
    ensures Guarded(key, Step(key, w, e))
  {
    if e.TryLock? || e.Unlock? || e.Reap? {
      LockStepKeepsGuard(key, w, e);
    } else {
      PlainStepKeepsGuard(key, w, e);
    }
  }

  lemma {:induction false} GuardedAlways(key: KeyMap, w: World, events: seq<Event>)
    requires Guarded(key, w) && SessionsLive(events)
    ensures Guarded(key, Steps(key, w, events))
    decreases |events|
  {
    if events != [] {
      assert events[0] in events;
      assert forall e :: e in events[1..] ==> e in events;
      StepKeepsGuard(key, w, events[0]);
      GuardedAlways(key, Step(key, w, events[0]), events[1..]);
    }
  }

  /** In every interleaving no two runs are in a body under one key, and a run in
      its body holds its lock. */
  lemma MutualExclusion(key: KeyMap, events: seq<Event>, r: nat, q: nat)
    requires SessionsLive(events)
    ensures var w := Steps(key, Idle(true), events);
            && !Overlap(key, w, r, q)
            && (At(w, r) == InBody ==> key(w.runs[r].job) in w.locks && w.locks[key(w.runs[r].job)] == r)
  {
    GuardedAlways(key, Idle(true), events);
  }

  /** The guard excludes overlap exactly when the database has advisory locks. */
  lemma ExclusionNeedsPostgres(key: KeyMap, postgres: bool)
    ensures (forall events, r, q | SessionsLive(events) :: !Overlap(key, Steps(key, Idle(postgres), events), r, q)) <==> postgres
  {
    if postgres {
      forall events, r, q | SessionsLive(events) ensures !Overlap(key, Steps(key, Idle(postgres), events), r, q) {
        MutualExclusion(key, events, r, q);
      }
    } else {
      var events := [Fire(0, ""), Fire(1, "")];
      TwoSteps(key, Idle(false), Fire(0, ""), Fire(1, ""));
      assert Overlap(key, Steps(key, Idle(postgres), events), 0, 1);
    }
  }

  /** And only while lock sessions live as long as their runs. */
  lemma LostSessionOverlaps(key: KeyMap)
    ensures exists events, r, q :: Overlap(key, Steps(key, Idle(true), events), r, q)
  {
    var w := Idle(true);
    var first, second := [Fire(0, ""), TryLock(0), Enter(0)], [Fire(1, ""), TryLock(1), Enter(1)];
    ThreeSteps(key, w, Fire(0, ""), TryLock(0), Enter(0));
    var w' := Steps(key, w, first);
    assert w'.locks == map[key("") := 0];
    var lost := Step(key, w', LoseLock(0));
    assert lost.locks == map[];
    ThreeSteps(key, lost, Fire(1, ""), TryLock(1), Enter(1));
    Then(key, w, first, [LoseLock(0)] + second);
    assert ([LoseLock(0)] + second)[1..] == second;
    assert Overlap(key, Steps(key, w, first + ([LoseLock(0)] + second)), 0, 1);
  }

  lemma {:induction false} Then(key: KeyMap, w: World, a: seq<Event>, b: seq<Event>)
    ensures Steps(key, w, a + b) == Steps(key, Steps(key, w, a), b)
    decreases |a|
  {
    if a == [] {
      assert a + b == b;
    } else {
      assert (a + b)[1..] == a[1..] + b;
      Then(key, Step(key, w, a[0]), a[1..], b);
    }
  }

  lemma TwoSteps(key: KeyMap, w: World, a: Event, b: Event)
    ensures Steps(key, w, [a, b]) == Step(key, Step(key, w, a), b)
  {
    assert [a, b][1..] == [b];
    assert [b][1..] == [];
    assert Steps(key, Step(key, w, a), [b]) == Step(key, Step(key, w, a), b);
  }

  lemma ThreeSteps(key: KeyMap, w: World, a: Event, b: Event, c: Event)
    ensures Steps(key, w, [a, b, c]) == Step(key, Step(key, Step(key, w, a), b), c)
  {
    assert [a, b, c][1..] == [b, c];
    TwoSteps(key, Step(key, w, a), b, c);
  }

  // ---------- every exit releases ----------

  /** A run that has finished, however it ended, holds no lock. */
  lemma FinishedHoldsNothing(key: KeyMap, events: seq<Event>, r: nat)
    requires SessionsLive(events) && At(Steps(key, Idle(true), events), r).Finished?
    ensures forall k <- Steps(key, Idle(true), events).locks :: Steps(key, Idle(true), events).locks[k] != r
  {
    GuardedAlways(key, Idle(true), events);
    var w := Steps(key, Idle(true), events);
    forall k | k in w.locks ensures w.locks[k] != r {
      assert OwnedBy(key, w, k, w.locks[k]);
    }
  }

  /** Steps of other runs leave a run's phase and its lock alone. */
  lemma OtherStep(key: KeyMap, w: World, e: Event, r: nat)
    requires Guarded(key, w) && !e.LoseLock? && e.run != r && r in w.runs
    ensures var v := Step(key, w, e);
            && r in v.runs && v.runs[r] == w.runs[r]
            && forall k :: k in w.locks && w.locks[k] == r <==> k in v.locks && v.locks[k] == r
  {
  }

  lemma {:induction false} OtherSteps(key: KeyMap, w: World, events: seq<Event>, r: nat)
    requires Guarded(key, w) && SessionsLive(events) && r in w.runs && forall e <- events :: e.run != r
    ensures var v := Steps(key, w, events);
            && Guarded(key, v) && r in v.runs && v.runs[r] == w.runs[r]
            && forall k :: k in w.locks && w.locks[k] == r <==> k in v.locks && v.locks[k] == r
    decreases |events|
  {
    if events != [] {
      assert events[0] in events;
      assert forall e :: e in events[1..] ==> e in events;
      OtherStep(key, w, events[0], r);
      StepKeepsGuard(key, w, events[0]);
      OtherSteps(key, Step(key, w, events[0]), events[1..], r);
    }
  }

  /** Whatever other runs do before, between and after: from its body a run holds its key
      until it unlocks, by a return or an exception, or its dead session is noticed, and
      the key is free right after that. */
  lemma EveryExitReleases(key: KeyMap, before: seq<Event>, r: nat, end: Outcome, between: seq<Event>)
    requires SessionsLive(before) && SessionsLive(between) && forall e <- between :: e.run != r
    requires end.Returned? || end.Raised? || end.Died?
    requires At(Steps(key, Idle(true), before), r) == InBody
    ensures var w := Steps(key, Idle(true), before);
            var k, leave, done := key(w.runs[r].job), if end.Died? then Kill(r) else Leave(r, end), if end.Died? then Reap(r) else Unlock(r);
            var u := Steps(key, Step(key, w, leave), between);
            && k in u.locks && u.locks[k] == r
            && At(Step(key, u, done), r) == Finished(end) && k !in Step(key, u, done).locks
  {
    var w := Steps(key, Idle(true), before);
    GuardedAlways(key, Idle(true), before);
    var leave := if end.Died? then Kill(r) else Leave(r, end);
    var left := Step(key, w, leave);
    StepKeepsGuard(key, w, leave);
    assert left.locks == w.locks;
    OtherSteps(key, left, between, r);
  }

  /** In every interleaving an attempt is decided at once: it is refused while another run
      with its key is between lock and unlock, it is refused only because of such a run or
      one that died, and otherwise it gets the lock. */
  lemma AttemptDecided(key: KeyMap, events: seq<Event>, r: nat)
    requires SessionsLive(events) && At(Steps(key, Idle(true), events), r) == Connected
    ensures var w := Steps(key, Idle(true), events);
            var k, v := key(w.runs[r].job), Step(key, w, TryLock(r));
            && (At(v, r) == Refused || (At(v, r) == Locked && k in v.locks && v.locks[k] == r))
            && ((exists q :: Rival(key, w, r, q) && Holding(At(w, q))) ==> At(v, r) == Refused)
            && (At(v, r) == Refused ==> exists q :: Rival(key, w, r, q) && (Holding(At(w, q)) || At(w, q).Dead?))
  {
    GuardedAlways(key, Idle(true), events);
    var w := Steps(key, Idle(true), events);
    var k := key(w.runs[r].job);
    if k in w.locks {
      assert OwnedBy(key, w, k, w.locks[k]);
      assert Rival(key, w, r, w.locks[k]);
    }
  }

  ghost predicate Rival(key: KeyMap, w: World, r: nat, q: nat)
    requires r in w.runs
  {
    q != r && q in w.runs && key(w.runs[q].job) == key(w.runs[r].job)
  }

  function Rank(phase: Phase): nat {
    match phase
    case Connected => 0
    case Refused => 1
    case Locked => 1
    case InBody => 2
    case Unlocking(_) => 3
    case Dead => 4
    case Finished(_) => 5
  }

  /** No step takes a run back, and each step of its own that does anything takes it
      on: a run takes at most five, and a refused run never reaches its body. */
  lemma RunsOnlyAdvance(key: KeyMap, w: World, e: Event, r: nat)
    requires r in w.runs
    ensures var v := Step(key, w, e);
            && r in v.runs && v.runs[r].job == w.runs[r].job
            && (At(v, r) == At(w, r) || (e.run == r && Rank(At(v, r)) > Rank(At(w, r))))
            && (At(w, r).Refused? ==> !Holding(At(v, r)))
  {
  }

  /** No run waits for another: an unfinished run always has a next step of its own. */
  lemma NeverBlocked(key: KeyMap, w: World, r: nat)
    requires r in w.runs && !At(w, r).Finished?
    ensures exists e: Event :: e.run == r && !e.Kill? && Rank(At(Step(key, w, e), r)) > Rank(At(w, r))
  {
    var e := match At(w, r)
      case Connected => TryLock(r)
      case Refused => Skip(r)
      case Locked => Enter(r)
      case InBody => Leave(r, Returned)
      case Unlocking(_) => Unlock(r)
      case _ => Reap(r);
    assert Rank(At(Step(key, w, e), r)) > Rank(At(w, r));
  }

  // ---------- the wrapper ----------

  /** A held lock; a session may take it again, and must then unlock it as often. */
  datatype Lock = Lock(session: nat, count: nat)

  function Holders(locks: map<int, Lock>): map<int, nat> {
    map k <- locks :: locks[k].session
  }

  predicate Available(locks: map<int, Lock>, k: int, session: nat) {
    k !in locks || locks[k].session == session
  }

  function Taken(locks: map<int, Lock>, k: int, session: nat): map<int, Lock> {
    locks[k := Lock(session, if k in locks then locks[k].count + 1 else 1)]
  }

  function GivenUp(locks: map<int, Lock>, k: int, session: nat): map<int, Lock> {
    if k !in locks || locks[k].session != session then locks
    else if locks[k].count > 1 then locks[k := Lock(session, locks[k].count - 1)]
    else locks - {k}
  }

  /** An unlock undoes a lock, a repeated one included. */
  lemma UnlockUndoesLock(locks: map<int, Lock>, k: int, session: nat)
    requires Available(locks, k, session) && (k in locks ==> locks[k].count >= 1)
    ensures GivenUp(Taken(locks, k, session), k, session) == locks
  {
    assert k !in locks ==> Taken(locks, k, session) - {k} == locks;
  }

  /** The advisory locks of one database. */
  class LockServer {
    var locks: map<int, Lock>

    constructor ()
      ensures locks == map[]
    {
      locks := map[];
    }

    method TryAdvisoryLock(k: int, session: nat) returns (acquired: bool)
      modifies this
      ensures acquired <==> Available(old(locks), k, session)
      ensures locks == if acquired then Taken(old(locks), k, session) else old(locks)
    {
      acquired := k !in locks || locks[k].session == session;
      if acquired {
        var count := if k in locks then locks[k].count + 1 else 1;
        locks := locks[k := Lock(session, count)];
      }
    }

    method AdvisoryUnlock(k: int, session: nat)
      modifies this
      ensures locks == GivenUp(old(locks), k, session)
    {
      if k in locks && locks[k].session == session {
        if locks[k].count > 1 {
          locks := locks[k := Lock(session, locks[k].count - 1)];
        } else {
          locks := locks - {k};
        }
      }
    }

    /** One call of the wrapped job, undisturbed, on a session of its own; `end` is how the
        job itself ends. */
    method SingleInstance(postgres: bool, key: KeyMap, job: string, session: nat, end: Outcome) returns (outcome: Outcome)
      requires session !in Holders(locks).Values && (end.Returned? || end.Raised?)
      modifies this
      ensures locks == old(locks)
      ensures outcome == if postgres && key(job) in old(locks) then Skipped else end
      ensures forall w: World | w.postgres == postgres && w.locks == Holders(old(locks)) && session !in w.runs ::
                var v := Steps(key, w, Trace(postgres, key(job) in old(locks), session, job, end));
                v.locks == Holders(locks) && At(v, session) == Finished(outcome)
    {
      ghost var before := locks;
      assert key(job) in locks ==> Holders(locks)[key(job)] in Holders(locks).Values;
      outcome := end;
      if postgres {
        var acquired := TryAdvisoryLock(key(job), session);
        if acquired {
          assert locks[key(job)].session == session;   // the job runs here
          UnlockUndoesLock(before, key(job), session);
          AdvisoryUnlock(key(job), session);
        } else {
          outcome := Skipped;
        }
      }
      forall w: World | w.postgres == postgres && w.locks == Holders(before) && session !in w.runs
        ensures var v := Steps(key, w, Trace(postgres, key(job) in before, session, job, end));
                v.locks == Holders(before) && At(v, session) == Finished(outcome)
      {
        TraceEnds(key, w, session, job, end);
      }
    }
  }

  /** The steps of one call, when nothing happens in between. */
  function Trace(postgres: bool, taken: bool, r: nat, job: string, end: Outcome): seq<Event> {
    if !postgres then [Fire(r, job), Leave(r, end)]
    else if taken then [Fire(r, job), TryLock(r), Skip(r)]
    else [Fire(r, job), TryLock(r), Enter(r)] + [Leave(r, end), Unlock(r)]
  }

  lemma TraceEnds(key: KeyMap, w: World, r: nat, job: string, end: Outcome)
    requires r !in w.runs && r !in w.locks.Values && (end.Returned? || end.Raised?)
    ensures var taken := key(job) in w.locks;
            var v := Steps(key, w, Trace(w.postgres, taken, r, job, end));
            v.locks == w.locks && At(v, r) == Finished(if w.postgres && taken then Skipped else end)
  {
    var taken := key(job) in w.locks;
    if !w.postgres {
      TwoSteps(key, w, Fire(r, job), Leave(r, end));
    } else if taken {
      ThreeSteps(key, w, Fire(r, job), TryLock(r), Skip(r));
    } else {
      var entered := Steps(key, w, [Fire(r, job), TryLock(r), Enter(r)]);
      ThreeSteps(key, w, Fire(r, job), TryLock(r), Enter(r));
      assert At(entered, r) == InBody && entered.locks == w.locks[key(job) := r];
      TwoSteps(key, entered, Leave(r, end), Unlock(r));
      Then(key, w, [Fire(r, job), TryLock(r), Enter(r)], [Leave(r, end), Unlock(r)]);
      assert Release(entered.locks, r) == w.locks;
    }
  }
}
