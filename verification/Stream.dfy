// The chunked, sealed backup stream: a writer that seals full frames, and a
// reader that opens them again into buffers of any size; what is read back from
// a whole stream, a cut one, and one with a frame that does not open.

module Stream {
  import opened Wrappers

  type Bytes = seq<Byte>

  const NONCE_SIZE: nat := 12
  const OVERHEAD: nat := 16
  const MAX_PLAIN: nat := 0x100_0000       // 16 MiB

  // The cipher: sealing adds 16 bytes, and opening undoes sealing.
  datatype Aead = Aead(seal: (Bytes, Bytes) -> Bytes, open: (Bytes, Bytes) -> Option<Bytes>)

  ghost predicate Sound(a: Aead) {
    forall nonce: Bytes, plain: Bytes :: |nonce| == NONCE_SIZE ==>
      |a.seal(nonce, plain)| == |plain| + OVERHEAD && a.open(nonce, a.seal(nonce, plain)) == Some(plain)
  }

  // ---- the format -------------------------------------------------------------

  function Be32(n: nat): (bs: Bytes)
    requires n < 0x1_0000_0000
    ensures |bs| == 4
  {
    var n1 := n / 256;
    var n2 := n1 / 256;
    [(n2 / 256) as Byte, (n2 % 256) as Byte, (n1 % 256) as Byte, (n % 256) as Byte]
  }

  function FromBe32(bs: Bytes): nat
    requires |bs| == 4
  {
    ((bs[0] as nat * 256 + bs[1] as nat) * 256 + bs[2] as nat) * 256 + bs[3] as nat
  }

  lemma Be32RoundTrip(n: nat)
    requires n < 0x1_0000_0000
    ensures FromBe32(Be32(n)) == n
  {}

  datatype Frame = Frame(nonce: Bytes, plain: Bytes)

  ghost predicate ValidFrame(f: Frame) { |f.nonce| == NONCE_SIZE && 0 < |f.plain| <= MAX_PLAIN }

  ghost predicate ValidFrames(fs: seq<Frame>) { forall i :: 0 <= i < |fs| ==> ValidFrame(fs[i]) }

  function Sealed(a: Aead, f: Frame): Bytes
    requires |f.plain| < 0x1_0000_0000
  {
    Be32(|f.plain|) + f.nonce + a.seal(f.nonce, f.plain)
  }

  ghost function AllSealed(a: Aead, fs: seq<Frame>): Bytes
    requires ValidFrames(fs)
  {
    if fs == [] then [] else Sealed(a, fs[0]) + AllSealed(a, fs[1..])
  }

  ghost function Plain(fs: seq<Frame>): Bytes {
    if fs == [] then [] else fs[0].plain + Plain(fs[1..])
  }

  const END: Bytes := [0, 0, 0, 0]

  ghost function Whole(a: Aead, fs: seq<Frame>): Bytes
    requires ValidFrames(fs)
  {
    AllSealed(a, fs) + END
  }

  ghost predicate AllFull(fs: seq<Frame>, chunk: nat) { forall i :: 0 <= i < |fs| ==> |fs[i].plain| == chunk }

  // Every frame is full, but for the last of a closed stream.
  ghost predicate Full(fs: seq<Frame>, chunk: nat, closed: bool) {
    if closed && fs != [] then AllFull(fs[..|fs| - 1], chunk) && |fs[|fs| - 1].plain| <= chunk else AllFull(fs, chunk)
  }

  // ---- the writer ---------------------------------------------------------------

  // The writer as a value: the plaintext of the frames sealed so far, and what
  // is buffered.
  datatype Enc = Enc(plains: seq<Bytes>, buf: Bytes)

  ghost function Plains(fs: seq<Frame>): (ps: seq<Bytes>)
    ensures |ps| == |fs| && forall i :: 0 <= i < |fs| ==> ps[i] == fs[i].plain
  {
    seq(|fs|, i requires 0 <= i < |fs| => fs[i].plain)
  }

  // Some more bytes, and a frame if the buffer is full.
  function Fill(e: Enc, p: Bytes, chunk: nat): Enc {
    if |e.buf| + |p| >= chunk then Enc(e.plains + [e.buf + p], []) else Enc(e.plains, e.buf + p)
  }

  function WriteOn(e: Enc, p: Bytes, chunk: nat): (r: Enc)
    requires |e.buf| < chunk
    ensures |r.buf| < chunk
    decreases |p|
  {
    if p == [] then e
    else
      var space := if chunk - |e.buf| > |p| then |p| else chunk - |e.buf|;
      WriteOn(Fill(e, p[..space], chunk), p[space..], chunk)
  }

  function CloseOn(e: Enc): seq<Bytes> { if e.buf == [] then e.plains else e.plains + [e.buf] }

  class ChunkEncWriter {
    const aead: Aead
    const chunk: nat
    var out: Bytes           // what has reached the underlying writer
    var buf: Bytes
    var closed: bool
    ghost var frames: seq<Frame>

    constructor (aead: Aead, chunk: nat)
      requires 1 <= chunk <= MAX_PLAIN
      ensures Valid() && !closed && Written() == [] && View() == Enc([], []) && out == [] && this.aead == aead && this.chunk == chunk
    {
      this.aead, this.chunk := aead, chunk;
      out, buf, closed, frames := [], [], false, [];
    }

    ghost predicate Valid()
      reads this
    {
      && 1 <= chunk <= MAX_PLAIN && |buf| < chunk
      && ValidFrames(frames) && Full(frames, chunk, closed)
      && out == (if closed then Whole(aead, frames) else AllSealed(aead, frames))
      && (closed ==> buf == [])
    }

    ghost function View(): Enc
      reads this
    {
      Enc(Plains(frames), buf)
    }

    // All the plaintext written so far.
    ghost function Written(): Bytes
      reads this
    {
      Plain(frames) + buf
    }

    // Seals one frame under a fresh random nonce.
    method FlushChunk(plain: Bytes)
      requires ValidFrames(frames) && out == AllSealed(aead, frames) && 0 < |plain| <= MAX_PLAIN
      modifies `out, `frames
      ensures ValidFrames(frames) && out == AllSealed(aead, frames) && |frames| == |old(frames)| + 1
      ensures frames[..|frames| - 1] == old(frames) && frames[|frames| - 1].plain == plain
    {
      out := out + Be32(|plain|);
      var zeros: Bytes := seq(NONCE_SIZE, _ => 0);
      assert |zeros| == NONCE_SIZE;
      var nonce: Bytes :| |nonce| == NONCE_SIZE;
      out := out + nonce;
      out := out + aead.seal(nonce, plain);
      ghost var f := Frame(nonce, plain);
      SealedAppend(aead, frames, f);
      assert out == AllSealed(aead, old(frames)) + Sealed(aead, f);
      frames := frames + [f];
    }

    // Write consumes all of p; a closed stream refuses it.
    method Write(p: Bytes) returns (n: nat, ok: bool)
      requires Valid()
      modifies this
      ensures Valid() && closed == old(closed) && ok == !closed
      ensures Written() == if ok then old(Written()) + p else old(Written())
      ensures n == if ok then |p| else 0
      ensures View() == if ok then WriteOn(old(View()), p, chunk) else old(View())
    {
      if closed { return 0, false; }
      ok, n := true, 0;
      var rest := p;
      while rest != []
        invariant Valid() && !closed && n == |p| - |rest| && n <= |p| && rest == p[n..]
        invariant Written() == old(Written()) + p[..n] && WriteOn(View(), rest, chunk) == WriteOn(old(View()), p, chunk)
        decreases |rest|
      {
        var space := chunk - |buf|;
        if space > |rest| { space := |rest|; }
        TakeMore(old(Written()), p, n, space);
        Put(rest[..space]);
        rest := rest[space..];
        n := n + space;
      }
    }

    // Fills the buffer and, when it is full, seals it.
    method Put(p: Bytes)
      requires Valid() && !closed && |buf| + |p| <= chunk
      modifies `out, `buf, `frames
      ensures Valid() && Written() == old(Written()) + p && View() == Fill(old(View()), p, chunk)
    {
      hide ValidFrames, AllSealed, Plain, Whole;
      buf := buf + p;
      if |buf| >= chunk {
        Seal();
      }
    }

    // Seals the buffer as one frame.
    method Seal()
      requires ValidFrames(frames) && out == AllSealed(aead, frames) && 0 < |buf| <= MAX_PLAIN
      modifies `out, `buf, `frames
      ensures ValidFrames(frames) && out == AllSealed(aead, frames) && buf == [] && Written() == old(Written())
      ensures frames != [] && frames[..|frames| - 1] == old(frames) && |frames[|frames| - 1].plain| == |old(buf)|
      ensures Plains(frames) == old(Plains(frames)) + [old(buf)]
    {
      ghost var fs := frames;
      FlushChunk(buf);
      PlainAppend(fs, frames[|frames| - 1]);
      assert frames == fs + [frames[|frames| - 1]];
      buf := [];
    }

    method Close()
      requires Valid()
      modifies this
      ensures Valid() && closed && Written() == old(Written()) && (old(closed) ==> out == old(out))
      ensures out == Whole(aead, frames) && Plain(frames) == old(Written())
      ensures Plains(frames) == CloseOn(old(View()))
    {
      hide ValidFrames, AllSealed, Plain;
      if closed { return; }
      closed := true;
      if buf != [] { Seal(); }
      out := out + END;
    }
  }

  lemma TakeMore(was: Bytes, p: Bytes, n: nat, space: nat)
    requires n + space <= |p|
    ensures was + p[..n] + p[n..][..space] == was + p[..n + space]
    ensures p[n..][space..] == p[n + space..]
  {}

  lemma {:induction false} SealedAppend(a: Aead, fs: seq<Frame>, f: Frame)
    requires ValidFrames(fs) && ValidFrame(f)
    ensures AllSealed(a, fs + [f]) == AllSealed(a, fs) + Sealed(a, f)
  {
    if fs == [] {
      assert [f][1..] == [];
    } else {
      assert (fs + [f])[1..] == fs[1..] + [f];
      SealedAppend(a, fs[1..], f);
    }
  }

  lemma {:induction false} PlainAppend(fs: seq<Frame>, f: Frame)
    ensures Plain(fs + [f]) == Plain(fs) + f.plain
  {
    if fs == [] {
      assert [f][1..] == [];
    } else {
      assert (fs + [f])[1..] == fs[1..] + [f];
      PlainAppend(fs[1..], f);
    }
  }

  // ---- the reader -----------------------------------------------------------------

  datatype ReadError = Eof | Unexpected | Truncated | TooLarge | Undecryptable

  // io.ReadFull: all k bytes; or none left, which is EOF; or too few.
  function ReadFull(src: Bytes, k: nat): (Bytes, Bytes, Option<ReadError>)
    requires k > 0
  {
    if |src| >= k then (src[..k], src[k..], None)
    else ([], [], Some(if src == [] then Eof else Unexpected))
  }

  // One frame off the stream: its plaintext, or why not; the end marker is Eof.
  datatype Next = Chunk(plain: Bytes, rest: Bytes) | Stop(err: ReadError, rest: Bytes, end: bool)

  function NextFrame(a: Aead, src: Bytes): Next {
    var (lenBuf, r1, e1) := ReadFull(src, 4);
    if e1.Some? then Stop(if e1.value == Eof then Truncated else e1.value, r1, false)
    else
      var plainLen := FromBe32(src[..4]);
      if plainLen == 0 then Stop(Eof, r1, true)
      else if plainLen > MAX_PLAIN then Stop(TooLarge, r1, false)
      else
        var (nonce, r2, e2) := ReadFull(r1, NONCE_SIZE);
        if e2.Some? then Stop(e2.value, r2, false)
        else
          var (ct, r3, e3) := ReadFull(r2, plainLen + OVERHEAD);
          if e3.Some? then Stop(e3.value, r3, false)
          else
            var pt := a.open(nonce, ct);
            if pt.None? then Stop(Undecryptable, r3, false) else Chunk(pt.value, r3)
  }

  datatype Dec = Dec(src: Bytes, buf: Bytes, off: nat, eof: bool)

  // One Read into a buffer of k bytes: the new state, the bytes, the error.
  function ReadStep(a: Aead, s: Dec, k: nat): (Dec, Bytes, Option<ReadError>) {
    if s.off < |s.buf| then
      var n := if k < |s.buf| - s.off then k else |s.buf| - s.off;
      (s.(off := s.off + n), s.buf[s.off..s.off + n], None)
    else if s.eof then (s, [], Some(Eof))
    else
      match NextFrame(a, s.src)
      case Stop(err, rest, end) => (s.(src := rest, eof := end), [], Some(err))
      case Chunk(plain, rest) =>
        var n := if k < |plain| then k else |plain|;
        (Dec(rest, plain, n, false), plain[..n], None)
  }

  class ChunkDecReader {
    const aead: Aead
    var src: Bytes           // what the underlying reader has left
    var buf: Bytes
    var off: nat
    var eof: bool

    constructor (aead: Aead, src: Bytes)
      ensures View() == Dec(src, [], 0, false) && this.aead == aead
    {
      this.aead, this.src := aead, src;
      buf, off, eof := [], 0, false;
    }

    ghost function View(): Dec
      reads this
    {
      Dec(src, buf, off, eof)
    }

    method Fill(k: nat) returns (bs: Bytes, err: Option<ReadError>)
      requires k > 0
      modifies `src
      ensures (bs, src, err) == ReadFull(old(src), k)
    {
      if |src| >= k {
        bs, err := src[..k], None;
        src := src[k..];
      } else {
        bs, err := [], Some(if src == [] then Eof else Unexpected);
        src := [];
      }
    }

    // Copies into p what fits of buf from off on.
    method Copy(p: array<Byte>) returns (n: nat)
      requires off <= |buf|
      modifies p
      ensures n == if p.Length < |buf| - off then p.Length else |buf| - off
      ensures p[..n] == buf[off..off + n] && p[n..] == old(p[n..])
    {
      n := if p.Length < |buf| - off then p.Length else |buf| - off;
      for i := 0 to n
        invariant p[..i] == buf[off..off + i]
        invariant forall j :: i <= j < p.Length ==> p[j] == old(p[j])
      {
        p[i] := buf[off + i];
      }
    }

    method Read(p: array<Byte>) returns (n: nat, err: Option<ReadError>)
      modifies this, p
      ensures n <= p.Length && (View(), p[..n], err) == ReadStep(aead, old(View()), p.Length)
      ensures p[n..] == old(p[n..])
    {
      if off < |buf| {
        n := Copy(p);
        off := off + n;
        return n, None;
      }
      if eof { return 0, Some(Eof); }
      err := ReadFrame();
      if err.Some? { return 0, err; }
      n := Copy(p);
      off := n;
    }

    // The next frame becomes buf.
    method ReadFrame() returns (err: Option<ReadError>)
      requires !eof
      modifies this
      ensures match NextFrame(aead, old(src))
              case Stop(e, rest, end) => View() == Dec(rest, old(buf), old(off), end) && err == Some(e)
              case Chunk(plain, rest) => View() == Dec(rest, plain, 0, false) && err == None
    {
      var lenBuf, nonce, ct;
      lenBuf, err := Fill(4);
      if err == Some(Eof) { return Some(Truncated); }
      if err.Some? { return; }
      var plainLen := FromBe32(lenBuf);
      if plainLen == 0 {
        eof := true;
        return Some(Eof);
      }
      if plainLen > MAX_PLAIN { return Some(TooLarge); }
      nonce, err := Fill(NONCE_SIZE);
      if err.Some? { return; }
      ct, err := Fill(plainLen + OVERHEAD);
      if err.Some? { return; }
      var pt := aead.open(nonce, ct);
      if pt.None? { return Some(Undecryptable); }
      buf, off := pt.value, 0;
    }
  }

  // ---- a whole reading -------------------------------------------------------------

  // Reads with buffers of these sizes, until one fails.
  ghost function Reads(a: Aead, s: Dec, ks: seq<nat>): (Bytes, Option<ReadError>)
    decreases |ks|
  {
    if ks == [] then ([], None)
    else
      var (s', bs, err) := ReadStep(a, s, ks[0]);
      if err.Some? then ([], err)
      else
        var (more, last) := Reads(a, s', ks[1..]);
        (bs + more, last)
  }

  lemma ChunkShrinks(a: Aead, src: Bytes)
    ensures NextFrame(a, src).Chunk? ==> |NextFrame(a, src).rest| < |src|
  {}

  // What the stream says, frame by frame: its plaintext and how it ends.
  ghost function Drain(a: Aead, src: Bytes): (Bytes, ReadError)
    decreases |src|
  {
    match NextFrame(a, src)
    case Stop(err, _, _) => ([], err)
    case Chunk(plain, rest) =>
      ChunkShrinks(a, src);
      var (more, err) := Drain(a, rest);
      (plain + more, err)
  }

  ghost function Pending(a: Aead, s: Dec): (Bytes, ReadError)
    requires s.off <= |s.buf|
  {
    if s.eof then (s.buf[s.off..], Eof)
    else
      var (more, err) := Drain(a, s.src);
      (s.buf[s.off..] + more, err)
  }

  lemma StepPends(a: Aead, s: Dec, k: nat)
    requires s.off <= |s.buf|
    ensures var (s', bs, err) := ReadStep(a, s, k);
      && s'.off <= |s'.buf|
      && (if err.Some? then Pending(a, s) == ([], err.value)
          else Pending(a, s) == (bs + Pending(a, s').0, Pending(a, s').1))
  {
    hide NextFrame;
    var (s', bs, err) := ReadStep(a, s, k);
    if s.off < |s.buf| {
      assert s.buf[s.off..] == bs + s'.buf[s'.off..];
      Regroup(bs, s'.buf[s'.off..], Drain(a, s.src).0);
    } else {
      var none: Bytes := [];
      assert s.buf[s.off..] == none && none + none == none;
      var next := NextFrame(a, s.src);
      if !s.eof && next.Chunk? {
        assert next.plain == bs + s'.buf[s'.off..];
        Regroup(bs, s'.buf[s'.off..], Drain(a, next.rest).0);
        var whole := next.plain + Drain(a, next.rest).0;
        assert [] + whole == whole;
        assert Pending(a, s) == (whole, Drain(a, next.rest).1);
      }
    }
  }

  lemma Regroup(x: Bytes, y: Bytes, z: Bytes)
    ensures (x + y) + z == x + (y + z)
  {}

  // Whatever the sizes of the buffers, the reader delivers what the stream
  // says, in order, and fails only when all of it was delivered.
  lemma {:induction false} ReadsFollowDrain(a: Aead, s: Dec, ks: seq<nat>)
    requires s.off <= |s.buf|
    ensures var (out, err) := Reads(a, s, ks);
      && out <= Pending(a, s).0
      && (err.Some? ==> out == Pending(a, s).0 && err.value == Pending(a, s).1)
    decreases |ks|
  {
    hide ReadStep, Pending;
    if ks != [] {
      StepPends(a, s, ks[0]);
      var (s', bs, err) := ReadStep(a, s, ks[0]);
      if err.None? { ReadsFollowDrain(a, s', ks[1..]); }
    }
  }

  // ---- what a written stream says, whole or cut off after m bytes --------------------

  ghost function Size(f: Frame): nat { |f.plain| + 32 }

  // Frames wholly inside the first m bytes, and the bytes after them.
  ghost function WholeFrames(fs: seq<Frame>, m: nat): (k: nat)
    ensures k <= |fs|
  {
    if fs == [] || m < Size(fs[0]) then 0 else 1 + WholeFrames(fs[1..], m - Size(fs[0]))
  }

  ghost function Loose(fs: seq<Frame>, m: nat): nat {
    if fs == [] || m < Size(fs[0]) then m else Loose(fs[1..], m - Size(fs[0]))
  }

  // How a stream cut r bytes after its last whole frame ends.
  ghost function EndAt(r: nat): ReadError {
    if r == 0 then Truncated else if r == 4 || r == 16 then Eof else Unexpected
  }

  lemma SealedParts(a: Aead, f: Frame)
    requires Sound(a) && ValidFrame(f)
    ensures var s := Sealed(a, f);
      && |s| == Size(f) && s[..4] == Be32(|f.plain|) && s[4..16] == f.nonce && s[16..] == a.seal(f.nonce, f.plain)
  {}

  // The first frame of a stream, if all of it is there.
  lemma NextWhole(a: Aead, f: Frame, rest: Bytes)
    requires Sound(a) && ValidFrame(f)
    ensures NextFrame(a, Sealed(a, f) + rest) == Chunk(f.plain, rest)
  {
    hide Sealed, Be32, FromBe32;
    SealedParts(a, f);
    Be32RoundTrip(|f.plain|);
    var s := Sealed(a, f);
    var src := s + rest;
    assert src[..4] == s[..4];
    assert src[4..][..NONCE_SIZE] == s[4..16];
    assert src[4..][NONCE_SIZE..][..|f.plain| + OVERHEAD] == s[16..];
    assert src[4..][NONCE_SIZE..][|f.plain| + OVERHEAD..] == rest;
  }

  lemma NextCut(a: Aead, f: Frame, m: nat)
    requires Sound(a) && ValidFrame(f) && m < Size(f)
    ensures |Sealed(a, f)| == Size(f)
    ensures var next := NextFrame(a, Sealed(a, f)[..m]); next.Stop? && next.err == EndAt(m)
  {
    hide Sealed, Be32, FromBe32;
    SealedParts(a, f);
    Be32RoundTrip(|f.plain|);
    var s := Sealed(a, f);
    assert m >= 4 ==> s[..m][..4] == s[..4];
  }

  lemma NextAtEnd(a: Aead, m: nat)
    requires m <= 4
    ensures var next := NextFrame(a, END[..m]); next.Stop? && next.err == EndAt(m)
  {
    assert m == 4 ==> END[..m] == END;
  }

  // What is first in the first m bytes of a stream.
  lemma FirstOfCut(a: Aead, fs: seq<Frame>, m: nat)
    requires Sound(a) && ValidFrames(fs) && m <= |Whole(a, fs)| && fs != []
    ensures var next := NextFrame(a, Whole(a, fs)[..m]);
      if m < Size(fs[0]) then next.Stop? && next.err == EndAt(m)
      else m - Size(fs[0]) <= |Whole(a, fs[1..])| && next == Chunk(fs[0].plain, Whole(a, fs[1..])[..m - Size(fs[0])])
  {
    hide NextFrame;
    var f, s := fs[0], Sealed(a, fs[0]);
    SealedParts(a, f);
    assert Whole(a, fs) == s + Whole(a, fs[1..]);
    hide Whole;
    if m < Size(f) {
      NextCut(a, f, m);
      assert Whole(a, fs)[..m] == s[..m];
    } else {
      var rest := Whole(a, fs[1..])[..m - Size(f)];
      assert Whole(a, fs)[..m] == s + rest;
      NextWhole(a, f, rest);
    }
  }

  // A cut stream says the plaintext of its whole frames.
  lemma {:induction false} DrainCut(a: Aead, fs: seq<Frame>, m: nat)
    requires Sound(a) && ValidFrames(fs) && m <= |Whole(a, fs)|
    ensures Drain(a, Whole(a, fs)[..m]) == (Plain(fs[..WholeFrames(fs, m)]), EndAt(Loose(fs, m)))
    decreases |fs|
  {
    hide NextFrame, Sound;
    if fs == [] {
      assert Whole(a, fs) == END;
      NextAtEnd(a, m);
    } else {
      FirstOfCut(a, fs, m);
      hide Whole;
      if m >= Size(fs[0]) {
        DrainCut(a, fs[1..], m - Size(fs[0]));
        var k := WholeFrames(fs[1..], m - Size(fs[0]));
        assert fs[..k + 1][1..] == fs[1..][..k];
      }
    }
  }

  lemma {:induction false} WholeHasAll(a: Aead, fs: seq<Frame>)
    requires Sound(a) && ValidFrames(fs)
    ensures WholeFrames(fs, |Whole(a, fs)|) == |fs| && Loose(fs, |Whole(a, fs)|) == 4
  {
    if fs != [] {
      SealedParts(a, fs[0]);
      assert Whole(a, fs) == Sealed(a, fs[0]) + Whole(a, fs[1..]);
      WholeHasAll(a, fs[1..]);
    }
  }

  lemma {:induction false} PlainPrefix(fs: seq<Frame>, k: nat)
    requires k <= |fs|
    ensures Plain(fs[..k]) <= Plain(fs)
  {
    if k > 0 {
      assert fs[..k][1..] == fs[1..][..k - 1];
      PlainPrefix(fs[1..], k - 1);
    }
  }

  // No chunk is empty, so every read delivers something.
  ghost predicate NoEmptyChunk(a: Aead, src: Bytes)
    decreases |src|
  {
    match NextFrame(a, src)
    case Stop(_, _, _) => true
    case Chunk(plain, rest) => ChunkShrinks(a, src); plain != [] && NoEmptyChunk(a, rest)
  }

  lemma {:induction false} CutHasNoEmptyChunk(a: Aead, fs: seq<Frame>, m: nat)
    requires Sound(a) && ValidFrames(fs) && m <= |Whole(a, fs)|
    ensures NoEmptyChunk(a, Whole(a, fs)[..m])
    decreases |fs|
  {
    if fs == [] {
      assert Whole(a, fs) == END;
      NextAtEnd(a, m);
    } else {
      FirstOfCut(a, fs, m);
      hide NextFrame, Whole, Sound;
      if m >= Size(fs[0]) { CutHasNoEmptyChunk(a, fs[1..], m - Size(fs[0])); }
    }
  }

  lemma StepDelivers(a: Aead, s: Dec, k: nat)
    requires s.off <= |s.buf| && k > 0 && NoEmptyChunk(a, s.src)
    ensures var (s', bs, err) := ReadStep(a, s, k);
      s'.off <= |s'.buf| && (err.None? ==> bs != [] && NoEmptyChunk(a, s'.src))
  {
    hide NextFrame;
  }

  // Enough reads with room in their buffers reach the end.
  lemma {:induction false} ReadsEnd(a: Aead, s: Dec, ks: seq<nat>)
    requires s.off <= |s.buf| && NoEmptyChunk(a, s.src) && |ks| > |Pending(a, s).0|
    requires forall i :: 0 <= i < |ks| ==> ks[i] > 0
    ensures Reads(a, s, ks).1.Some?
    decreases |ks|
  {
    hide ReadStep, Pending, NoEmptyChunk;
    StepDelivers(a, s, ks[0]);
    StepPends(a, s, ks[0]);
    var (s', bs, err) := ReadStep(a, s, ks[0]);
    if err.None? { ReadsEnd(a, s', ks[1..]); }
  }

  ghost function Fresh(src: Bytes): Dec { Dec(src, [], 0, false) }

  lemma FreshPending(a: Aead, src: Bytes)
    ensures Pending(a, Fresh(src)) == Drain(a, src)
  {
    var none: Bytes := [];
    assert none + Drain(a, src).0 == Drain(a, src).0;
  }

  // Reading a written stream, through buffers of any sizes, gives back what
  // was written, in order, and then EOF.
  lemma StreamRoundTrip(a: Aead, fs: seq<Frame>, ks: seq<nat>)
    requires Sound(a) && ValidFrames(fs)
    ensures var (out, err) := Reads(a, Fresh(Whole(a, fs)), ks);
      && out <= Plain(fs)
      && (err.Some? ==> out == Plain(fs) && err.value == Eof)
      && ((forall i :: 0 <= i < |ks| ==> ks[i] > 0) && |ks| > |Plain(fs)| ==> err.Some?)
  {
    hide Reads, Drain, Pending, Whole, NoEmptyChunk, WholeFrames, Loose;
    var src := Whole(a, fs);
    assert src[..|src|] == src && fs[..|fs|] == fs;
    DrainCut(a, fs, |src|);
    WholeHasAll(a, fs);
    CutHasNoEmptyChunk(a, fs, |src|);
    FreshPending(a, src);
    ReadsFollowDrain(a, Fresh(src), ks);
    if (forall i :: 0 <= i < |ks| ==> ks[i] > 0) && |ks| > |Plain(fs)| { ReadsEnd(a, Fresh(src), ks); }
  }

  // Reading a stream that was cut off gives a prefix of what was written.
  lemma CutStreamGivesPrefix(a: Aead, fs: seq<Frame>, m: nat, ks: seq<nat>)
    requires Sound(a) && ValidFrames(fs) && m <= |Whole(a, fs)|
    ensures var (out, err) := Reads(a, Fresh(Whole(a, fs)[..m]), ks);
      && out <= Plain(fs[..WholeFrames(fs, m)]) <= Plain(fs)
      && (err.Some? ==> err.value == EndAt(Loose(fs, m)))
  {
    hide Reads, Drain, Pending, Whole, WholeFrames, Loose;
    var src := Whole(a, fs)[..m];
    DrainCut(a, fs, m);
    FreshPending(a, src);
    PlainPrefix(fs, WholeFrames(fs, m));
    ReadsFollowDrain(a, Fresh(src), ks);
  }

  // A cut stream passes for a complete one exactly when the cut falls right
  // after the length of a frame or right after its nonce.
  lemma CutPassesForWholeExactly(a: Aead, fs: seq<Frame>, m: nat)
    requires Sound(a) && ValidFrames(fs) && m < |Whole(a, fs)|
    ensures Drain(a, Whole(a, fs)[..m]).1 == Eof <==>
      exists k :: 0 <= k < |fs| && (m == |AllSealed(a, fs[..k])| + 4 || m == |AllSealed(a, fs[..k])| + 16)
  {
    hide Drain, Whole;
    DrainCut(a, fs, m);
    LooseIsPast(a, fs, m);
    var k := WholeFrames(fs, m);
    if k0 :| 0 <= k0 < |fs| && (m == |AllSealed(a, fs[..k0])| + 4 || m == |AllSealed(a, fs[..k0])| + 16) {
      WithinFrame(a, fs, k0, m);
    }
  }

  lemma {:induction false} LooseIsPast(a: Aead, fs: seq<Frame>, m: nat)
    requires Sound(a) && ValidFrames(fs) && m < |Whole(a, fs)|
    ensures var k := WholeFrames(fs, m);
      m == |AllSealed(a, fs[..k])| + Loose(fs, m) && (k == |fs| ==> Loose(fs, m) < 4)
  {
    if fs != [] {
      SealedParts(a, fs[0]);
      assert Whole(a, fs) == Sealed(a, fs[0]) + Whole(a, fs[1..]);
      if m >= Size(fs[0]) {
        LooseIsPast(a, fs[1..], m - Size(fs[0]));
        var k := WholeFrames(fs[1..], m - Size(fs[0]));
        assert fs[..k + 1][1..] == fs[1..][..k];
      }
    }
  }

  lemma {:induction false} WithinFrame(a: Aead, fs: seq<Frame>, k: nat, m: nat)
    requires Sound(a) && ValidFrames(fs) && k < |fs| && |AllSealed(a, fs[..k])| <= m < |AllSealed(a, fs[..k])| + Size(fs[k])
    ensures WholeFrames(fs, m) == k
  {
    if k > 0 {
      SealedParts(a, fs[0]);
      assert fs[..k][1..] == fs[1..][..k - 1];
      WithinFrame(a, fs[1..], k - 1, m - Size(fs[0]));
    }
  }

  // ---- from the writes to the reads -------------------------------------------------

  ghost function Flatten(ws: seq<Bytes>): Bytes { if ws == [] then [] else Flatten(ws[..|ws| - 1]) + ws[|ws| - 1] }

  ghost function WriteAll(ws: seq<Bytes>, chunk: nat): (e: Enc)
    requires chunk > 0
    ensures |e.buf| < chunk
  {
    if ws == [] then Enc([], []) else WriteOn(WriteAll(ws[..|ws| - 1], chunk), ws[|ws| - 1], chunk)
  }

  // Frames of plausible size, and nothing lost: what the writer keeps.
  ghost predicate Keeps(e: Enc, chunk: nat, data: Bytes) {
    Flatten(e.plains) + e.buf == data && forall i :: 0 <= i < |e.plains| ==> |e.plains[i]| == chunk
  }

  lemma {:induction false} WriteKeeps(e: Enc, p: Bytes, chunk: nat, data: Bytes)
    requires |e.buf| < chunk && Keeps(e, chunk, data)
    ensures Keeps(WriteOn(e, p, chunk), chunk, data + p)
    decreases |p|
  {
    if p == [] {
      assert data + p == data;
    } else {
      var space := if chunk - |e.buf| > |p| then |p| else chunk - |e.buf|;
      FillKeeps(e, p[..space], chunk, data);
      WriteKeeps(Fill(e, p[..space], chunk), p[space..], chunk, data + p[..space]);
      assert data + p[..space] + p[space..] == data + p;
    }
  }

  lemma FillKeeps(e: Enc, p: Bytes, chunk: nat, data: Bytes)
    requires |e.buf| + |p| <= chunk && Keeps(e, chunk, data)
    ensures Keeps(Fill(e, p, chunk), chunk, data + p)
  {
    assert (e.plains + [e.buf + p])[..|e.plains|] == e.plains;
    Regroup(Flatten(e.plains), e.buf, p);
    assert Flatten(e.plains) + (e.buf + p) + [] == Flatten(e.plains) + (e.buf + p);
  }

  lemma {:induction false} WritesKeep(ws: seq<Bytes>, chunk: nat)
    requires chunk > 0
    ensures Keeps(WriteAll(ws, chunk), chunk, Flatten(ws))
  {
    if ws != [] {
      WritesKeep(ws[..|ws| - 1], chunk);
      WriteKeeps(WriteAll(ws[..|ws| - 1], chunk), ws[|ws| - 1], chunk, Flatten(ws[..|ws| - 1]));
    }
  }

  lemma {:induction false} PlainIsFlat(fs: seq<Frame>)
    ensures Plain(fs) == Flatten(Plains(fs))
    decreases |fs|
  {
    if fs != [] {
      var front, f := fs[..|fs| - 1], fs[|fs| - 1];
      PlainIsFlat(front);
      assert fs == front + [f];
      PlainAppend(front, f);
      assert Plains(fs)[..|fs| - 1] == Plains(front);
    }
  }

  // Whatever is written in whatever pieces, at any frame size up to 16 MiB and
  // under any nonces, is read back through buffers of any sizes, in order,
  // and then comes EOF.
  lemma WritesRoundTrip(a: Aead, chunk: nat, ws: seq<Bytes>, fs: seq<Frame>, ks: seq<nat>)
    requires Sound(a) && 1 <= chunk <= 0x100_0000
    requires Plains(fs) == CloseOn(WriteAll(ws, chunk)) && forall i :: 0 <= i < |fs| ==> |fs[i].nonce| == NONCE_SIZE
    ensures ValidFrames(fs)
    ensures var (out, err) := Reads(a, Fresh(Whole(a, fs)), ks);
      && out <= Flatten(ws)
      && (err.Some? ==> out == Flatten(ws) && err.value == Eof)
      && ((forall i :: 0 <= i < |ks| ==> ks[i] > 0) && |ks| > |Flatten(ws)| ==> err.Some?)
  {
    hide Sound, Reads, Whole, Flatten, WriteAll, ValidFrames, Plains;
    WrittenFrames(chunk, ws, fs);
    StreamRoundTrip(a, fs, ks);
  }

  lemma WrittenFrames(chunk: nat, ws: seq<Bytes>, fs: seq<Frame>)
    requires 1 <= chunk <= MAX_PLAIN
    requires Plains(fs) == CloseOn(WriteAll(ws, chunk)) && forall i :: 0 <= i < |fs| ==> |fs[i].nonce| == NONCE_SIZE
    ensures ValidFrames(fs) && Plain(fs) == Flatten(ws)
  {
    var e := WriteAll(ws, chunk);
    WritesKeep(ws, chunk);
    PlainIsFlat(fs);
    assert forall i :: 0 <= i < |fs| ==> fs[i].plain == CloseOn(e)[i];
    assert (e.plains + [e.buf])[..|e.plains|] == e.plains;
    assert e.buf == [] ==> Flatten(e.plains) + e.buf == Flatten(e.plains);
  }

  // What follows whole frames is read after them.
  lemma {:induction false} DrainPasses(a: Aead, fs: seq<Frame>, rest: Bytes)
    requires Sound(a) && ValidFrames(fs)
    ensures Drain(a, AllSealed(a, fs) + rest) == (Plain(fs) + Drain(a, rest).0, Drain(a, rest).1)
    decreases |fs|
  {
    hide NextFrame, Sound, Sealed;
    if fs == [] {
      assert AllSealed(a, fs) + rest == rest && Plain(fs) + Drain(a, rest).0 == Drain(a, rest).0;
    } else {
      var tail := AllSealed(a, fs[1..]) + rest;
      assert AllSealed(a, fs) + rest == Sealed(a, fs[0]) + tail;
      NextWhole(a, fs[0], tail);
      DrainPasses(a, fs[1..], rest);
      assert fs[0].plain + (Plain(fs[1..]) + Drain(a, rest).0) == Plain(fs) + Drain(a, rest).0;
    }
  }

  // A frame that does not open is an error, never an end: a reader gets what the
  // frames before it hold and then fails, whatever follows.
  lemma BadFrameIsAnError(a: Aead, fs: seq<Frame>, n: nat, nonce: Bytes, ct: Bytes, after: Bytes, ks: seq<nat>)
    requires Sound(a) && ValidFrames(fs) && 0 < n <= MAX_PLAIN && |nonce| == NONCE_SIZE && |ct| == n + OVERHEAD
    requires a.open(nonce, ct) == None
    ensures var (out, err) := Reads(a, Fresh(AllSealed(a, fs) + (Be32(n) + nonce + ct + after)), ks);
      out <= Plain(fs) && (err.Some? ==> out == Plain(fs) && err.value == Undecryptable)
  {
    hide Drain, Reads, AllSealed, Plain, Sound, NextFrame;
    var bad := Be32(n) + nonce + ct + after;
    BadFrame(a, n, nonce, ct, after);
    DrainPasses(a, fs, bad);
    DrainStops(a, bad);
    var s := Fresh(AllSealed(a, fs) + bad);
    assert s.buf[s.off..] == [];
    ReadsFollowDrain(a, s, ks);
  }

  lemma DrainStops(a: Aead, src: Bytes)
    requires NextFrame(a, src).Stop?
    ensures Drain(a, src) == ([], NextFrame(a, src).err)
  {
    hide NextFrame;
  }

  lemma BadFrame(a: Aead, n: nat, nonce: Bytes, ct: Bytes, after: Bytes)
    requires 0 < n <= MAX_PLAIN && |nonce| == NONCE_SIZE && |ct| == n + OVERHEAD && a.open(nonce, ct) == None
    ensures NextFrame(a, Be32(n) + nonce + ct + after) == Stop(Undecryptable, after, false)
  {
    hide Be32, FromBe32;
    var src := Be32(n) + nonce + ct + after;
    Be32RoundTrip(n);
    assert src[..4] == Be32(n) && src[4..] == nonce + ct + after;
    assert (nonce + ct + after)[..NONCE_SIZE] == nonce && (nonce + ct + after)[NONCE_SIZE..] == ct + after;
    assert (ct + after)[..n + OVERHEAD] == ct && (ct + after)[n + OVERHEAD..] == after;
  }
}
