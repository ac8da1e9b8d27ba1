// The sliding-window limiter: per address, the times of its recent accepted
// calls, in a slice that every call filters in place before it appends to it,
// so that at most n accepted calls lie within any window.

module Limiter {
  // What `Allow` keeps of the recorded times: those inside the window.
  function Recent(hits: seq<int>, cut: int): seq<int> {
    if hits == [] then []
    else if hits[|hits| - 1] > cut then Recent(hits[..|hits| - 1], cut) + [hits[|hits| - 1]]
    else Recent(hits[..|hits| - 1], cut)
  }

  lemma {:induction false} RecentIsShorter(hits: seq<int>, cut: int)
    ensures |Recent(hits, cut)| <= |hits|
  {
    if hits != [] { RecentIsShorter(hits[..|hits| - 1], cut); }
  }

  function Decide(hits: seq<int>, n: nat, window: int, now: int): (seq<int>, bool) {
    var kept := Recent(hits, now - window);
    if |kept| >= n then (kept, false) else (kept + [now], true)
  }

  // A Go slice: a prefix of an array that may have room behind it.
  class Slice {
    var data: array<int>
    var len: nat

    constructor ()
      ensures fresh(data) && Valid() && Times() == []
    {
      data, len := new int[0], 0;
    }

    ghost predicate Valid()
      reads this
    {
      len <= data.Length
    }

    ghost function Times(): seq<int>
      reads this, data
      requires Valid()
    {
      data[..len]
    }
  }

  class IpLimiter {
    const n: nat
    const window: int
    var hits: map<string, Slice>

    constructor (n: int, window: int)
      ensures Valid() && hits == map[] && this.window == window
      ensures this.n == if n <= 0 then 10 else n
    {
      this.n := if n <= 0 then 10 else n;
      this.window := window;
      hits := map[];
    }

    ghost predicate Valid()
      reads this, hits.Values, set s | s in hits.Values :: s.data
    {
      && n > 0
      && (forall ip :: ip in hits ==> hits[ip].Valid())
      && (forall a, b :: a in hits && b in hits && a != b ==> hits[a] != hits[b] && hits[a].data != hits[b].data)
    }

    ghost function Hits(ip: string): seq<int>
      requires Valid()
      reads this, hits.Values, set s | s in hits.Values :: s.data
    {
      if ip in hits then hits[ip].Times() else []
    }

    // kept := arr[:0], then append whatever is inside the window: the kept
    // times overwrite the front of the array they are read from.
    method Filter(s: Slice, cut: int)
      requires s.Valid()
      modifies s, s.data
      ensures s.Valid() && s.data == old(s.data) && s.Times() == Recent(old(s.Times()), cut)
    {
      ghost var was := s.Times();
      var kept := 0;
      for i := 0 to s.len
        invariant kept <= i <= s.len == |was| <= s.data.Length
        invariant s.data == old(s.data) && forall j :: i <= j < s.len ==> s.data[j] == was[j]
        invariant s.data[..kept] == Recent(was[..i], cut)
      {
        var t := s.data[i];
        assert was[..i + 1][..i] == was[..i];
        ghost var front := s.data[..kept];
        if t > cut {
          s.data[kept] := t;
          kept := kept + 1;
          assert s.data[..kept] == front + [t];
        }
      }
      assert was[..|was|] == was;
      s.len := kept;
    }

    method Append(s: Slice, t: int)
      requires s.Valid()
      modifies s, s.data
      ensures s.Valid() && s.Times() == old(s.Times()) + [t]
      ensures s.data == old(s.data) || fresh(s.data)
    {
      if s.len == s.data.Length {
        var bigger := new int[2 * s.len + 1];
        for i := 0 to s.len
          invariant s.data == old(s.data) && s.len == old(s.len) && s.Times() == old(s.Times())
          invariant bigger[..i] == s.data[..i]
        {
          bigger[i] := s.data[i];
        }
        s.data := bigger;
      }
      s.data[s.len] := t;
      s.len := s.len + 1;
    }

    // One address: the times still inside the window, and this one if there is room.
    method Take(s: Slice, now: int) returns (ok: bool)
      requires s.Valid()
      modifies s, s.data
      ensures s.Valid() && (s.Times(), ok) == Decide(old(s.Times()), n, window, now)
      ensures s.data == old(s.data) || fresh(s.data)
    {
      Filter(s, now - window);
      if s.len >= n { return false; }
      Append(s, now);
      return true;
    }

    method Allow(ip: string, now: int) returns (ok: bool)
      requires Valid()
      modifies this, hits.Values, set s | s in hits.Values :: s.data
      ensures Valid() && (Hits(ip), ok) == Decide(old(Hits(ip)), n, window, now)
      ensures forall other :: other != ip ==> Hits(other) == old(Hits(other))
    {
      hide Decide, Recent;
      if ip !in hits {
        var empty := new Slice();
        hits := hits[ip := empty];
      }
      assert hits[ip].Times() == old(Hits(ip));
      ok := Take(hits[ip], now);
    }
  }

  // ---- a run of calls for one address -------------------------------------

  // The times accepted when calls arrive at `calls`, and what is recorded.
  ghost function Run(calls: seq<int>, n: nat, window: int): (r: (seq<int>, seq<int>)) {
    if calls == [] then ([], [])
    else
      var (accepted, hits) := Run(calls[..|calls| - 1], n, window);
      var (hits', ok) := Decide(hits, n, window, calls[|calls| - 1]);
      (if ok then accepted + [calls[|calls| - 1]] else accepted, hits')
  }

  ghost predicate Ordered(ts: seq<int>) { forall i, j :: 0 <= i <= j < |ts| ==> ts[i] <= ts[j] }

  // The first k times are at or before the cut, the others after it.
  ghost predicate Splits(ts: seq<int>, k: nat, cut: int) {
    && k <= |ts|
    && (forall i :: 0 <= i < k ==> ts[i] <= cut)
    && (forall i :: k <= i < |ts| ==> ts[i] > cut)
  }

  // Filtering times that split drops their first part.
  lemma {:induction false} RecentIsSuffix(ts: seq<int>, k: nat, cut: int)
    requires Splits(ts, k, cut)
    ensures Recent(ts, cut) == ts[k..]
  {
    if ts != [] {
      var front := ts[..|ts| - 1];
      if k == |ts| {
        RecentIsSuffix(front, k - 1, cut);
      } else {
        RecentIsSuffix(front, k, cut);
        assert ts[k..] == front[k..] + [ts[|ts| - 1]];
      }
    }
  }

  // Ordered times split at every cut.
  lemma {:induction false} OrderedSplits(ts: seq<int>, cut: int) returns (k: nat)
    requires Ordered(ts)
    ensures Splits(ts, k, cut) && (k < |ts| ==> ts[k] > cut)
  {
    if ts == [] || ts[|ts| - 1] <= cut {
      k := |ts|;
    } else {
      k := OrderedSplits(ts[..|ts| - 1], cut);
    }
  }

  // What is recorded are the accepted times but for k that have left every
  // window from `last` on.
  ghost predicate Records(accepted: seq<int>, hits: seq<int>, k: nat, window: int, last: int) {
    && Ordered(accepted) && (forall i :: 0 <= i < |accepted| ==> accepted[i] <= last)
    && k <= |accepted| && hits == accepted[k..]
    && forall i :: 0 <= i < k ==> accepted[i] <= last - window
  }

  ghost predicate Spread(accepted: seq<int>, n: nat, window: int) {
    forall i :: 0 <= i && i + n < |accepted| ==> accepted[i + n] >= accepted[i] + window
  }

  lemma DecideRecords(accepted: seq<int>, hits: seq<int>, k: nat, n: nat, window: int, last: int, now: int) returns (k': nat)
    requires Records(accepted, hits, k, window, last) && last <= now
    ensures k <= k' <= |accepted| && Splits(accepted, k', now - window)
    ensures Recent(hits, now - window) == accepted[k'..]
  {
    k' := OrderedSplits(accepted, now - window);
    assert Splits(hits, k' - k, now - window);
    RecentIsSuffix(hits, k' - k, now - window);
  }

  lemma AcceptedStaysSpread(accepted: seq<int>, k: nat, n: nat, window: int, now: int)
    requires Spread(accepted, n, window) && Splits(accepted, k, now - window) && |accepted| - k < n
    ensures Spread(accepted + [now], n, window)
  {}

  lemma AcceptedIsRecorded(accepted: seq<int>, k: nat, window: int, now: int)
    requires k <= |accepted| && Records(accepted, accepted[k..], k, window, now)
    ensures Records(accepted + [now], accepted[k..] + [now], k, window, now)
  {
    assert accepted[k..] + [now] == (accepted + [now])[k..];
  }

  lemma DecideKeepsRecords(accepted: seq<int>, hits: seq<int>, k: nat, n: nat, window: int, last: int, now: int) returns (k': nat)
    requires n > 0 && Records(accepted, hits, k, window, last) && Spread(accepted, n, window) && last <= now
    ensures var (hits', ok) := Decide(hits, n, window, now);
      var accepted' := if ok then accepted + [now] else accepted;
      Records(accepted', hits', k', window, now) && Spread(accepted', n, window)
  {
    k' := DecideRecords(accepted, hits, k, n, window, last, now);
    hide Recent;
    assert Records(accepted, accepted[k'..], k', window, now);
    hide Records, Spread, Splits;
    if |accepted| - k' < n {
      AcceptedIsRecorded(accepted, k', window, now);
      AcceptedStaysSpread(accepted, k', n, window, now);
    }
  }

  lemma {:induction false} RunInv(calls: seq<int>, n: nat, window: int, now: int) returns (k: nat)
    requires n > 0 && Ordered(calls) && (calls != [] ==> calls[|calls| - 1] <= now)
    ensures var (accepted, hits) := Run(calls, n, window);
      Records(accepted, hits, k, window, now) && Spread(accepted, n, window)
  {
    hide Recent;
    k := 0;
    if calls != [] {
      var front := calls[..|calls| - 1];
      var (accepted, hits) := Run(front, n, window);
      var last := calls[|calls| - 1];
      k := RunInv(front, n, window, last);
      k := DecideKeepsRecords(accepted, hits, k, n, window, last, last);
    }
  }

  // Any n + 1 accepted calls span at least a window.
  lemma AcceptedAreSpread(calls: seq<int>, n: nat, window: int, i: nat)
    requires n > 0 && Ordered(calls) && i + n < |Run(calls, n, window).0|
    ensures Run(calls, n, window).0[i + n] >= Run(calls, n, window).0[i] + window
  {
    hide Run;
    var _ := RunInv(calls, n, window, if calls == [] then 0 else calls[|calls| - 1]);
  }

  // A call is denied exactly when n accepted calls lie strictly inside the
  // window that ends with it.
  lemma DeniedExactly(calls: seq<int>, n: nat, window: int, now: int)
    requires n > 0 && Ordered(calls) && (calls != [] ==> calls[|calls| - 1] <= now)
    ensures var (accepted, hits) := Run(calls, n, window);
      !Decide(hits, n, window, now).1 <==> |accepted| >= n && accepted[|accepted| - n] > now - window
  {
    hide Run, Recent;
    var k := RunInv(calls, n, window, now);
    var (accepted, hits) := Run(calls, n, window);
    k := DecideRecords(accepted, hits, k, n, window, now, now);
  }
}
