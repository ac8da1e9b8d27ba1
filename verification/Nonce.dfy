// The replay guard of signed requests: a clock-skew check, and a cache of the
// nonces accepted within two skew windows.

module Nonce {
  import opened Wrappers

  datatype Key = Key(device: string, nonce: string)

  datatype AuthError = Replay | Skew | Refused | Busy | SignedBeforeStart

  const SWEEP_EVERY_MS := 60_000
  const MAX_NONCES: nat := 0x10_0000
  const DEFAULT_SKEW_MS := 60_000
  const TWO_63 := 0x8000_0000_0000_0000

  // 64-bit two's complement subtraction and negation wrap around.
  function Wrap64(x: int): int { (x + TWO_63) % (2 * TWO_63) - TWO_63 }

  // Milliseconds of the server's clock, and a skew, as far as the sums of
  // both stay clear of the ends of the 64-bit range.
  type Millis = x: int | 0 <= x < 0x1000_0000_0000_0000
  type Stamp = x: int | -TWO_63 <= x < TWO_63

  // A skew as configured: not positive means the default.
  type Setting = x: int | -TWO_63 <= x < 0x1000_0000_0000_0000

  function SkewOf(configured: Setting): (s: Millis)
    ensures s > 0 && (configured > 0 ==> s == configured) && (configured <= 0 ==> s == 60_000)
  {
    if configured <= 0 then DEFAULT_SKEW_MS else configured
  }

  // The distance of a request's stamp from the clock, as the code computes it.
  function Delta(now: Millis, ts: Stamp): int {
    var d := Wrap64(now - ts);
    if d < 0 then Wrap64(-d) else d
  }

  predicate WithinSkew(now: Millis, ts: Stamp, skew: Millis) { Delta(now, ts) <= skew }

  // The check is exact but for the one stamp whose distance is the most
  // negative 64-bit number, which negation leaves negative.
  lemma WithinSkewExactly(now: Millis, ts: Stamp, skew: Millis)
    ensures WithinSkew(now, ts, skew) <==> (now - ts <= skew && ts - now <= skew) || ts == now - TWO_63
  {
    var d := now - ts;
    if d >= TWO_63 {
      assert Wrap64(d) == d - 2 * TWO_63;
    } else {
      assert Wrap64(d) == d;
    }
  }

  // ---- the cache as a value ---------------------------------------------------

  datatype Cache = Cache(nonces: Option<map<Key, int>>, startedAt: int, lastSweep: int)

  const NEW_CACHE := Cache(None, 0, 0)

  function Started(c: Cache, now: Millis): Cache {
    if c.nonces.None? then Cache(Some(map[]), c.startedAt, now) else c
  }

  function Begin(c: Cache, now: Millis): Cache {
    var c1 := Started(c, now);
    if c1.startedAt == 0 then c1.(startedAt := now) else c1
  }

  function Swept(nonces: map<Key, int>, cutoff: int): map<Key, int> {
    map k | k in nonces && !(nonces[k] < cutoff) :: nonces[k]
  }

  predicate Due(c: Cache, now: Millis)
    requires c.nonces.Some?
  {
    now - c.lastSweep >= SWEEP_EVERY_MS || |c.nonces.value| >= MAX_NONCES
  }

  function Consume(c: Cache, skew: Millis, key: Key, ts: int, now: Millis): (Cache, Option<AuthError>) {
    var c1 := Started(c, now);
    if c1.startedAt != 0 && now - c1.startedAt < 2 * skew && ts < c1.startedAt then (c1, Some(SignedBeforeStart))
    else
      var c2 := if Due(c1, now) then c1.(nonces := Some(Swept(c1.nonces.value, now - 2 * skew)), lastSweep := now) else c1;
      if key in c2.nonces.value then (c2, Some(Replay))
      else if |c2.nonces.value| >= MAX_NONCES then (c2, Some(Busy))
      else (c2.(nonces := Some(c2.nonces.value[key := ts])), None)
  }

  // A request: its key and stamp, when its stamp was checked, whether its
  // device, body and signature passed, when the clock was read for its nonce,
  // and when the nonce was looked at (the clock is read before the lock).
  datatype Request = Request(key: Key, ts: Stamp, checkedAt: Millis, genuine: bool, readAt: Millis, lockedAt: Millis)

  function Authenticate(c: Cache, skew: Millis, r: Request): (Cache, Option<AuthError>) {
    if !WithinSkew(r.checkedAt, r.ts, skew) then (c, Some(Skew))
    else if !r.genuine then (c, Some(Refused))
    else Consume(c, skew, r.key, r.ts, r.readAt)
  }

  // ---- the authenticator --------------------------------------------------------

  class Authenticator {
    var skewMS: Setting
    var nonces: Option<map<Key, int>>
    var startedAt: int
    var lastSweep: int

    constructor (skewMS: Setting)
      ensures View() == NEW_CACHE && this.skewMS == skewMS
    {
      this.skewMS, nonces, startedAt, lastSweep := skewMS, None, 0, 0;
    }

    function View(): Cache
      reads this
    {
      Cache(nonces, startedAt, lastSweep)
    }

    method StartLocked(now: Millis)
      modifies this
      ensures View() == Started(old(View()), now) && skewMS == old(skewMS)
    {
      if nonces == None {
        nonces := Some(map[]);
        lastSweep := now;
      }
    }

    method Start(now: Millis)
      modifies this
      ensures View() == Begin(old(View()), now) && skewMS == old(skewMS)
    {
      StartLocked(now);
      if startedAt == 0 { startedAt := now; }
    }

    // Drops what is older than the cutoff, one entry at a time.
    method Sweep(cutoff: int)
      requires nonces.Some?
      modifies `nonces
      ensures nonces == Some(Swept(old(nonces).value, cutoff))
    {
      var all := nonces.value;
      var left := all.Keys;
      while left != {}
        invariant left <= all.Keys && nonces.Some?
        invariant nonces.value.Keys == set k | k in all && (k in left || !(all[k] < cutoff))
        invariant forall k :: k in nonces.value ==> nonces.value[k] == all[k]
        decreases |left|
      {
        var k :| k in left;
        if all[k] < cutoff { nonces := Some(nonces.value - {k}); }
        left := left - {k};
      }
      assert nonces.value == Swept(all, cutoff);
    }

    method ConsumeNonce(key: Key, ts: int, now: Millis) returns (err: Option<AuthError>)
      requires skewMS > 0
      modifies this
      ensures skewMS == old(skewMS) && (View(), err) == Consume(old(View()), skewMS, key, ts, now)
    {
      StartLocked(now);
      if startedAt != 0 && now - startedAt < 2 * skewMS && ts < startedAt { return Some(SignedBeforeStart); }
      if now - lastSweep >= SWEEP_EVERY_MS || |nonces.value| >= MAX_NONCES {
        Sweep(now - 2 * skewMS);
        lastSweep := now;
      }
      if key in nonces.value { return Some(Replay); }
      if |nonces.value| >= MAX_NONCES { return Some(Busy); }
      nonces := Some(nonces.value[key := ts]);
      return None;
    }

    method AuthenticateRequest(r: Request) returns (err: Option<AuthError>)
      modifies this
      ensures skewMS == SkewOf(old(skewMS))
      ensures (View(), err) == Authenticate(old(View()), skewMS, r)
    {
      if skewMS <= 0 { skewMS := DEFAULT_SKEW_MS; }
      var delta := Wrap64(r.checkedAt - r.ts);
      if delta < 0 { delta := Wrap64(-delta); }
      if delta > skewMS { return Some(Skew); }
      if !r.genuine { return Some(Refused); }
      err := ConsumeNonce(r.key, r.ts, r.readAt);
    }
  }

  // ---- runs --------------------------------------------------------

  // A new process forgets the cache and calls Start before it serves.
  datatype Event = Starts(at: Millis) | Asks(r: Request) | Restarts(at: Millis)

  function Time(e: Event): Millis { if e.Asks? then e.r.lockedAt else e.at }

  function After(c: Cache, skew: Millis, e: Event): Cache {
    match e
    case Starts(at) => Begin(c, at)
    case Asks(r) => Authenticate(c, skew, r).0
    case Restarts(at) => Begin(NEW_CACHE, at)
  }

  // The cache after each event.
  ghost function Run(es: seq<Event>, skew: Millis): Cache {
    if es == [] then NEW_CACHE else After(Run(es[..|es| - 1], skew), skew, es[|es| - 1])
  }

  // Was event i a request that passed?
  ghost predicate Accepts(es: seq<Event>, skew: Millis, i: nat)
    requires i < |es|
  {
    es[i].Asks? && Authenticate(Run(es[..i], skew), skew, es[i].r).1 == None
  }

  // The lock is taken in clock order, and at most one skew window passes
  // between a request's stamp check and its turn at the cache.
  ghost predicate Timely(es: seq<Event>, skew: Millis) {
    && (forall i, j :: 0 <= i < j < |es| ==> Time(es[i]) <= Time(es[j]))
    && forall i :: 0 <= i < |es| && es[i].Asks? ==> TimelyRequest(es[i].r, skew)
  }

  ghost predicate TimelyRequest(r: Request, skew: Millis) {
    r.checkedAt <= r.readAt <= r.lockedAt <= r.checkedAt + skew
  }

  // Subtracting the stamp from the clock stays within 64 bits; a stamp that
  // is not negative always does.
  predicate NoWrap(r: Request) { r.checkedAt - r.ts < TWO_63 }

  ghost predicate OneProcess(es: seq<Event>, i: nat, j: nat)
    requires i <= j <= |es|
  {
    forall k :: i <= k < j ==> !es[k].Restarts?
  }

  // An accepted nonce stays in the cache, or is too old for the skew check.
  ghost predicate Remembered(c: Cache, key: Key, ts: int, skew: Millis, now: Millis) {
    c.nonces.Some? && ((key in c.nonces.value && c.nonces.value[key] == ts) || ts < now - 2 * skew)
  }

  lemma StepRemembers(c: Cache, skew: Millis, e: Event, key: Key, ts: int, now: Millis)
    requires Remembered(c, key, ts, skew, now) && now <= Time(e) && !e.Restarts?
    requires e.Asks? ==> e.r.readAt <= e.r.lockedAt
    ensures Remembered(After(c, skew, e), key, ts, skew, Time(e))
  {}

  lemma {:induction false} AcceptedIsRemembered(es: seq<Event>, skew: Millis, i: nat, j: nat)
    requires Timely(es, skew) && i < j <= |es| && Accepts(es, skew, i) && OneProcess(es, i + 1, j)
    ensures Remembered(Run(es[..j], skew), es[i].r.key, es[i].r.ts, skew, Time(es[j - 1]))
  {
    assert es[..j][..j - 1] == es[..j - 1];
    if i < j - 1 {
      AcceptedIsRemembered(es, skew, i, j - 1);
      StepRemembers(Run(es[..j - 1], skew), skew, es[j - 1], es[i].r.key, es[i].r.ts, Time(es[j - 2]));
    }
  }

  lemma RememberedIsRefused(c: Cache, skew: Millis, r: Request, ts: int, now: Millis)
    requires Remembered(c, r.key, ts, skew, now) && now <= r.lockedAt && TimelyRequest(r, skew)
    requires r.ts <= ts && NoWrap(r)
    ensures Authenticate(c, skew, r).1 != None
  {
    WithinSkewExactly(r.checkedAt, r.ts, skew);
  }

  // At most once: within one process a device's nonce that was accepted is
  // never accepted again with the same stamp, or an earlier one.
  lemma AtMostOnce(es: seq<Event>, skew: Millis, i: nat, j: nat)
    requires Timely(es, skew) && i < j < |es| && Accepts(es, skew, i) && OneProcess(es, i + 1, j)
    requires es[j].Asks? && es[j].r.key == es[i].r.key && es[j].r.ts <= es[i].r.ts && NoWrap(es[j].r)
    ensures !Accepts(es, skew, j)
  {
    AcceptedIsRemembered(es, skew, i, j);
    RememberedIsRefused(Run(es[..j], skew), skew, es[j].r, es[i].r.ts, Time(es[j - 1]));
  }

  // Without that condition it fails: the stamp 2^63 below the clock passes the
  // skew check, and the next sweep forgets it.
  lemma WrappedStampRepeats(key: Key)
    ensures var at: Millis := 200_000;
      var first := Request(key, at - TWO_63, at, true, at, at);
      var again := first.(readAt := at + 60_000, lockedAt := at + 60_000);
      var es := [Starts(1), Asks(first), Asks(again)];
      Timely(es, DEFAULT_SKEW_MS) && Accepts(es, DEFAULT_SKEW_MS, 1) && Accepts(es, DEFAULT_SKEW_MS, 2)
  {
    var at: Millis := 200_000;
    var first := Request(key, at - TWO_63, at, true, at, at);
    var again := first.(readAt := at + 60_000, lockedAt := at + 60_000);
    var es := [Starts(1), Asks(first), Asks(again)];
    var empty: map<Key, int> := map[];
    var one := empty[key := first.ts];
    assert |empty| == 0;
    assert es[..1] == [Starts(1)] && es[..1][..0] == [] && es[..2] == [Starts(1), Asks(first)] && es[..2][..1] == es[..1];
    assert Run([], DEFAULT_SKEW_MS) == NEW_CACHE;
    assert Run(es[..1], DEFAULT_SKEW_MS) == Cache(Some(empty), 1, 1);
    assert Swept(empty, at - 2 * DEFAULT_SKEW_MS) == empty;
    assert Run(es[..2], DEFAULT_SKEW_MS) == Cache(Some(one), 1, at);
    assert Swept(one, again.readAt - 2 * DEFAULT_SKEW_MS) == empty;
  }

  // ---- starts and restarts ----------------------------------------------------------

  // A process began to remember here: at its first Start, or as a new process.
  ghost predicate Began(es: seq<Event>, s: nat)
    requires s < |es|
  {
    !es[s].Asks? && es[s].at > 0 && (es[s].Starts? ==> forall k :: 0 <= k < s ==> es[k].Asks?)
  }

  lemma {:induction false} NotStartedYet(es: seq<Event>, skew: Millis)
    requires forall k :: 0 <= k < |es| ==> es[k].Asks?
    ensures Run(es, skew).startedAt == 0
  {
    if es != [] { NotStartedYet(es[..|es| - 1], skew); }
  }

  // That start time is kept until the process ends.
  lemma {:induction false} StartSticks(es: seq<Event>, skew: Millis, s: nat)
    requires s < |es| && Began(es, s) && OneProcess(es, s + 1, |es|)
    ensures Run(es, skew).startedAt == es[s].at
    decreases |es|
  {
    var front := es[..|es| - 1];
    if s == |front| { if es[s].Starts? { NotStartedYet(front, skew); } } else { StartSticks(front, skew, s); }
  }

  // After a start anywhere in a run, no request with a stamp from before it is
  // accepted by that process.
  lemma AcceptedAfterStart(es: seq<Event>, skew: Millis, s: nat, i: nat)
    requires Timely(es, skew) && s < i < |es| && Began(es, s) && OneProcess(es, s + 1, i)
    requires es[i].Asks? && NoWrap(es[i].r) && Accepts(es, skew, i)
    ensures es[i].r.ts >= es[s].at
  {
    assert Began(es[..i], s);
    StartSticks(es[..i], skew, s);
    WithinSkewExactly(es[i].r.checkedAt, es[i].r.ts, skew);
  }

  // The first request after a start passes exactly if its stamp is within the
  // skew and not from before the start.
  lemma FirstAfterStartExactly(at: Millis, skew: Millis, r: Request)
    requires at > 0 && at <= r.checkedAt && TimelyRequest(r, skew) && r.genuine && NoWrap(r)
    ensures Authenticate(Begin(NEW_CACHE, at), skew, r).1 == None <==> r.checkedAt - r.ts <= skew && r.ts - r.checkedAt <= skew && r.ts >= at
  {
    WithinSkewExactly(r.checkedAt, r.ts, skew);
    var empty: map<Key, int> := map[];
    assert |empty| == 0;
  }

  // What an earlier process accepted is accepted again after a restart exactly
  // if its stamp is not from before the restart, is still within the skew, and
  // was not used since.
  lemma AcceptedAgainExactly(es: seq<Event>, skew: Millis, i: nat, s: nat, j: nat)
    requires Timely(es, skew) && i < s < j < |es| && Accepts(es, skew, i)
    requires es[s].Restarts? && es[s].at > 0 && OneProcess(es, s + 1, j)
    requires es[j].Asks? && es[j].r.key == es[i].r.key && es[j].r.ts == es[i].r.ts && es[j].r.genuine && NoWrap(es[j].r)
    requires forall k :: s < k < j && es[k].Asks? && es[k].r.key == es[j].r.key ==> es[k].r.ts == es[j].r.ts
    requires |Held(Run(es[..j], skew))| < MAX_NONCES
    ensures Accepts(es, skew, j) <==>
      && es[j].r.ts >= es[s].at && WithinSkew(es[j].r.checkedAt, es[j].r.ts, skew)
      && forall k: nat :: s < k < j && Accepts(es, skew, k) ==> es[k].r.key != es[j].r.key
  {
    var r, front := es[j].r, es[..j];
    if Accepts(es, skew, j) {
      AcceptedAfterStart(es, skew, s, j);
      forall k: nat | s < k < j && Accepts(es, skew, k) ensures es[k].r.key != r.key {
        if es[k].r.key == r.key { AtMostOnce(es, skew, k, j); }
      }
    }
    assert Began(front, s);
    StartSticks(front, skew, s);
    hide Authenticate, WithinSkew, Run, Timely;
    if WithinSkew(r.checkedAt, r.ts, skew) && r.ts >= es[s].at && forall k: nat :: s < k < j && Accepts(es, skew, k) ==> es[k].r.key != r.key {
      if r.key in Held(Run(front, skew)) { HeldSinceRestart(es, skew, s, j, r.key); }
      FreshPasses(Run(front, skew), skew, r);
    }
  }

  // Such a run: a stamp half a minute ahead, used once by each process.
  lemma FutureStampRepeats(key: Key)
    ensures var first := Request(key, 230_000, 200_000, true, 200_000, 200_000);
      var again := Request(key, 230_000, 215_000, true, 215_000, 215_000);
      var es := [Starts(1), Asks(first), Restarts(210_000), Asks(again)];
      Timely(es, DEFAULT_SKEW_MS) && Accepts(es, DEFAULT_SKEW_MS, 1) && Accepts(es, DEFAULT_SKEW_MS, 3)
  {
    var first := Request(key, 230_000, 200_000, true, 200_000, 200_000);
    var again := Request(key, 230_000, 215_000, true, 215_000, 215_000);
    var es := [Starts(1), Asks(first), Restarts(210_000), Asks(again)];
    var empty: map<Key, int> := map[];
    assert |empty| == 0;
    assert es[..1] == [Starts(1)] && es[..1][..0] == [] && es[..3][..2] == es[..2];
    assert Run([], DEFAULT_SKEW_MS) == NEW_CACHE;
    assert Run(es[..1], DEFAULT_SKEW_MS) == Cache(Some(empty), 1, 1);
    assert Swept(empty, 200_000 - 2 * DEFAULT_SKEW_MS) == empty;
    assert Run(es[..3], DEFAULT_SKEW_MS) == Cache(Some(empty), 210_000, 210_000);
  }

  function Held(c: Cache): map<Key, int> { if c.nonces.Some? then c.nonces.value else map[] }

  lemma HeldSinceRestart(es: seq<Event>, skew: Millis, s: nat, j: nat, key: Key)
    requires s < j <= |es| && es[s].Restarts? && key in Held(Run(es[..j], skew))
    ensures exists k: nat :: s < k < j && Accepts(es, skew, k) && es[k].r.key == key
  {
    var front := es[..j];
    HeldWasAccepted(front, skew, key);
    var k :| 0 <= k < |front| && Accepts(front, skew, k) && front[k].r.key == key && OneProcess(front, k + 1, |front|);
    assert front[..k] == es[..k] && front[s] == es[s];
  }

  // ---- room -----------------------------------------------------------------------

  ghost predicate Bounded(c: Cache) { c.nonces.Some? ==> |c.nonces.value| <= MAX_NONCES }

  lemma {:induction false} SweepShrinks(nonces: map<Key, int>, cutoff: int)
    ensures |Swept(nonces, cutoff)| <= |nonces|
  {
    SubsetSize(Swept(nonces, cutoff).Keys, nonces.Keys);
    assert |Swept(nonces, cutoff)| == |Swept(nonces, cutoff).Keys| && |nonces| == |nonces.Keys|;
  }

  lemma {:induction false} SubsetSize<T>(a: set<T>, b: set<T>)
    requires a <= b
    ensures |a| <= |b|
  {
    if a != {} {
      var x :| x in a;
      SubsetSize(a - {x}, b - {x});
    }
  }

  lemma InsertGrows(nonces: map<Key, int>, key: Key, ts: int)
    ensures |nonces[key := ts]| <= |nonces| + 1
  {
    assert nonces[key := ts].Keys == nonces.Keys + {key};
  }

  lemma StepStaysBounded(c: Cache, skew: Millis, e: Event)
    requires Bounded(c)
    ensures Bounded(After(c, skew, e))
  {
    hide Swept, WithinSkew;
    if e.Asks? {
      var c1 := Started(c, e.r.readAt);
      SweepShrinks(c1.nonces.value, e.r.readAt - 2 * skew);
      InsertGrows(c1.nonces.value, e.r.key, e.r.ts);
      InsertGrows(Swept(c1.nonces.value, e.r.readAt - 2 * skew), e.r.key, e.r.ts);
    }
  }

  // The cache never holds more than 2^20 nonces.
  lemma {:induction false} CacheIsBounded(es: seq<Event>, skew: Millis)
    ensures Bounded(Run(es, skew))
  {
    if es != [] {
      CacheIsBounded(es[..|es| - 1], skew);
      StepStaysBounded(Run(es[..|es| - 1], skew), skew, es[|es| - 1]);
    }
  }

  // ---- no request is refused without a reason ---------------------------------------

  // Every nonce held was accepted earlier, by this process.
  lemma {:induction false} HeldWasAccepted(es: seq<Event>, skew: Millis, key: Key)
    requires key in Held(Run(es, skew))
    ensures exists i :: 0 <= i < |es| && Accepts(es, skew, i) && es[i].r.key == key && OneProcess(es, i + 1, |es|)
  {
    assert es != [];
    var front, e := es[..|es| - 1], es[|es| - 1];
    var c := Run(front, skew);
    if key in Held(c) {
      HeldWasAccepted(front, skew, key);
      var i :| 0 <= i < |front| && Accepts(front, skew, i) && front[i].r.key == key && OneProcess(front, i + 1, |front|);
      assert es[..i] == front[..i];
      assert Accepts(es, skew, i);
      assert OneProcess(es, i + 1, |es|);
    } else {
      assert es[..|front|] == front;
      assert Accepts(es, skew, |front|);
    }
  }

  lemma FreshPasses(c: Cache, skew: Millis, r: Request)
    requires WithinSkew(r.checkedAt, r.ts, skew) && r.genuine && (c.nonces.Some? ==> r.key !in c.nonces.value)
    ensures var err := Authenticate(c, skew, r).1;
      || err == None
      || (err == Some(SignedBeforeStart) && r.ts < c.startedAt)
      || (err == Some(Busy) && c.nonces.Some? && |c.nonces.value| >= MAX_NONCES)
  {
    hide WithinSkew;
    if c.nonces.Some? { SweepShrinks(c.nonces.value, r.readAt - 2 * skew); }
    var empty: map<Key, int> := map[];
    assert |empty| == 0 && Swept(empty, r.readAt - 2 * skew) == empty;
  }

  // A genuine request in time, with a nonce its device has not used in this
  // process, passes unless it was signed before the start or the cache is full.
  lemma FreshIsAccepted(es: seq<Event>, skew: Millis, r: Request)
    requires WithinSkew(r.checkedAt, r.ts, skew) && r.genuine
    requires forall i: nat :: i < |es| && OneProcess(es, i + 1, |es|) && Accepts(es, skew, i) ==> es[i].r.key != r.key
    ensures var c, err := Run(es, skew), Authenticate(Run(es, skew), skew, r).1;
      || err == None
      || (err == Some(SignedBeforeStart) && r.ts < c.startedAt)
      || (err == Some(Busy) && c.nonces.Some? && |c.nonces.value| >= MAX_NONCES)
  {
    hide Authenticate, WithinSkew, Run, Accepts;
    if r.key in Held(Run(es, skew)) { HeldWasAccepted(es, skew, r.key); }
    FreshPasses(Run(es, skew), skew, r);
  }

  // A request that is not genuine is refused and leaves the cache alone, so
  // every later answer is what it would have been without it.
  lemma ForgedChangesNothing(es: seq<Event>, skew: Millis, r: Request)
    requires !r.genuine
    ensures Authenticate(Run(es, skew), skew, r).1 in {Some(Skew), Some(Refused)}
    ensures Run(es + [Asks(r)], skew) == Run(es, skew)
  {
    assert (es + [Asks(r)])[..|es|] == es;
  }

  // The server is busy only when 2^20 nonces are held, none of them older than
  // two skews: a full cache is swept first.
  lemma BusyMeansFull(c: Cache, skew: Millis, r: Request)
    requires Authenticate(c, skew, r).1 == Some(Busy)
    ensures var held := Held(Authenticate(c, skew, r).0);
      |held| >= 0x10_0000 && forall k :: k in held ==> r.readAt - 2 * skew <= held[k]
  {
    hide WithinSkew;
    var c1 := Started(c, r.readAt);
    if Due(c1, r.readAt) { SweptIsFresh(c1.nonces.value, r.readAt - 2 * skew); }
  }

  lemma SweptIsFresh(nonces: map<Key, int>, cutoff: int)
    ensures forall k :: k in Swept(nonces, cutoff) ==> cutoff <= Swept(nonces, cutoff)[k]
  {}
}
