/** The throughput client's send window and receive credits: sends are posted freely within a window, and between
    windows the client waits for as many completions as the window has sends, whatever they complete. */
module FlowControl {
  import opened Arithmetic

  const WC_BATCH := 10
  const LOW_WATER := 10
  const PACKETS := 100             // the default depth of the send queue
  const CYCLES := 1000             // the default number of sends

  datatype Wc = SendDone | Received

  function Sends(wcs: seq<Wc>): (n: nat)
    ensures n <= |wcs|
  {
    if wcs == [] then 0 else Sends(wcs[..|wcs| - 1]) + if wcs[|wcs| - 1] == SendDone then 1 else 0
  }

  function Receives(wcs: seq<Wc>): (n: nat)
    ensures n + Sends(wcs) == |wcs|
  {
    if wcs == [] then 0 else Receives(wcs[..|wcs| - 1]) + if wcs[|wcs| - 1] == Received then 1 else 0
  }

  /** The receive credits after one more receive has been handled and the credits, if low, filled up. */
  function Credits(routs: int, rxDepth: int): int {
    if routs - 1 <= LOW_WATER then rxDepth else routs - 1
  }

  /** The credits after a batch of completions. */
  function CreditsAfter(routs: int, rxDepth: int, wcs: seq<Wc>): int {
    if wcs == [] then routs
    else
      var r := CreditsAfter(routs, rxDepth, wcs[..|wcs| - 1]);
      if wcs[|wcs| - 1] == Received then Credits(r, rxDepth) else r
  }

  // ---------- The window, on the counts alone ----------

  /** What one wait counted. */
  datatype Wait = Wait(sends: nat, receives: nat)

  function Completed(ws: seq<Wait>): nat {
    if ws == [] then 0 else Completed(ws[..|ws| - 1]) + ws[|ws| - 1].sends
  }

  function Arrived(ws: seq<Wait>): nat {
    if ws == [] then 0 else Arrived(ws[..|ws| - 1]) + ws[|ws| - 1].receives
  }

  /** Each wait counts at least a window of completions, of sends that have been posted by then. */
  predicate Waits(ws: seq<Wait>, size: nat) {
    ws == [] || (
      var last := ws[|ws| - 1];
      Waits(ws[..|ws| - 1], size) && last.sends + last.receives >= size
      && Completed(ws[..|ws| - 1]) + last.sends <= |ws| * size
    )
  }

  /** Send `i` is posted, after these waits, with fewer sends outstanding than the queue holds. */
  predicate FitsQueue(i: int, ws: seq<Wait>, size: nat) {
    i - Completed(ws) < size
  }

  /** How many waits come before send `i`: one at each multiple of the window's size, but none before the one send that
      follows the `iters` of the loop. */
  function WaitsBefore(i: nat, iters: nat, size: nat): nat
    requires size > 0
  {
    if i == 0 then 0 else if i == iters then (i - 1) / size else i / size
  }

  /** Some send before send `n` was posted to a full queue. */
  ghost predicate Overrun(n: nat, iters: nat, ws: seq<Wait>, size: nat)
    requires size > 0
  {
    exists i {:trigger WaitsBefore(i, iters, size)} :: 0 <= i < n && WaitsBefore(i, iters, size) <= |ws|
      && !FitsQueue(i, ws[..WaitsBefore(i, iters, size)], size)
  }

  /** How many sends are outstanding right after send `i` has been posted. */
  function OutAfter(i: nat, iters: nat, ws: seq<Wait>, size: nat): int
    requires size > 0 && WaitsBefore(i, iters, size) <= |ws|
  {
    i + 1 - Completed(ws[..WaitsBefore(i, iters, size)])
  }

  /** `out` has, send by send, how many were outstanding then. */
  ghost predicate Logged(out: seq<int>, iters: nat, ws: seq<Wait>, size: nat)
    requires size > 0
  {
    forall i :: 0 <= i < |out| ==> WaitsBefore(i, iters, size) <= |ws| && out[i] == OutAfter(i, iters, ws, size)
  }

  /** The loop ends with the count at a multiple of the depth, so the send after it has no wait between it and a full
      window. */
  predicate EvenWindows(iters: nat, size: nat)
    requires size > 0
  {
    iters > 0 && iters % size == 0
  }

  /** What the waits of a whole run may have counted. */
  predicate Mix(ws: seq<Wait>, iters: nat, size: nat)
    requires size > 0
  {
    Waits(ws, size) && |ws| == WaitsBefore(iters, iters, size)
  }

  class PerfContext {
    const rxDepth: nat
    const txDepth: nat
    var routs: int                // receives the client believes are posted
    var queued: int               // receives on the adapter's queue
    var posted: nat               // sends posted so far
    var done: nat                 // send completions counted so far
    var received: nat             // receive completions counted so far
    var full: bool                // a send was posted while txDepth sends were outstanding

    function Outstanding(): int
      reads this
    {
      posted - done
    }

    ghost predicate Valid()
      reads this
    {
      && rxDepth > LOW_WATER && txDepth > 0
      && LOW_WATER < routs == queued <= rxDepth && done <= posted
    }

    constructor (rxDepth: nat, txDepth: nat)
      requires rxDepth > LOW_WATER && txDepth > 0
      ensures Valid() && routs == rxDepth && posted == 0 && done == 0 && received == 0 && !full
      ensures this.rxDepth == rxDepth && this.txDepth == txDepth
    {
      this.rxDepth, this.txDepth := rxDepth, txDepth;
      posted, done, received, full, routs, queued := 0, 0, 0, false, 0, 0;
      new;
      var n := PostRecv(rxDepth);
      routs := n;
    }

    /** Posts `n` receives, all of which the adapter accepts. */
    method PostRecv(n: int) returns (i: int)
      modifies this`queued
      ensures i == (if n < 0 then 0 else n) && queued == old(queued) + i
    {
      i := 0;
      while i < n
        invariant 0 <= i && (i <= n || i == 0) && queued == old(queued) + i
      {
        queued := queued + 1;
        i := i + 1;
      }
    }

    method PostSend()
      requires Valid()
      modifies this`posted, this`full
      ensures Valid() && posted == old(posted) + 1
      ensures full == (old(full) || old(Outstanding()) >= txDepth)
    {
      full := full || Outstanding() >= txDepth;
      posted := posted + 1;
    }

    /** What the completion queue yields: some of the sends outstanding and of the receives posted, in any mix. */
    method PollCq() returns (wcs: seq<Wc>)
      requires Valid() && Outstanding() > 0
      ensures 1 <= |wcs| <= WC_BATCH && Sends(wcs) <= Outstanding()
    {
      assert Sends([SendDone][..0]) == 0;
      assert Sends([SendDone]) == 1;
      wcs :| 1 <= |wcs| <= WC_BATCH && Sends(wcs) <= Outstanding();
    }

    /** One batch: a send completion is counted; a receive completion has taken a receive off the queue, uses up a
        credit and is counted; the credits are at all times the receives on the queue. */
    method HandleBatch(wcs: seq<Wc>) returns (status: int)
      requires Valid() && Sends(wcs) <= Outstanding()
      modifies this`routs, this`queued, this`done, this`received
      ensures Valid() && status == 0
      ensures done == old(done) + Sends(wcs) && received == old(received) + Receives(wcs)
      ensures routs == CreditsAfter(old(routs), rxDepth, wcs) == CreditsLeft(old(routs), rxDepth, Receives(wcs))
      ensures Receives(wcs) < old(routs) - LOW_WATER ==> routs == old(routs) - Receives(wcs)
    {
      CreditsAre(routs, rxDepth, wcs);
      for i := 0 to |wcs|
        invariant Valid()
        invariant done == old(done) + Sends(wcs[..i]) && received == old(received) + Receives(wcs[..i])
        invariant old(done) + Sends(wcs) <= posted && routs == CreditsAfter(old(routs), rxDepth, wcs[..i])
      {
        assert wcs[..i + 1][..i] == wcs[..i];
        SendsGrow(wcs, i + 1);
        match wcs[i]
        case SendDone =>
          done := done + 1;
        case Received =>
          queued := queued - 1;
          routs := routs - 1;
          if routs <= LOW_WATER {
            var n := PostRecv(rxDepth - routs);
            routs := routs + n;
            if routs < rxDepth {
              return 1;
            }
          }
          received := received + 1;
      }
      assert wcs[..|wcs|] == wcs;
      status := 0;
    }

    /** Waits until at least `iters` completions have been counted. A send is outstanding at every poll, so the wait
        ends once sends complete. */
    method WaitCompletions(iters: nat) returns (status: int)
      requires Valid() && Outstanding() >= iters
      modifies this`routs, this`queued, this`done, this`received
      ensures Valid() && status == 0
      ensures old(done) <= done && old(received) <= received
      ensures iters <= (done - old(done)) + (received - old(received)) < iters + 10 || iters == 0
    {
      var rcnt, scnt := 0, 0;
      while rcnt + scnt < iters
        invariant Valid() && 0 <= rcnt && 0 <= scnt
        invariant done == old(done) + scnt && received == old(received) + rcnt
        invariant rcnt + scnt < iters + WC_BATCH || iters == 0
        decreases iters - rcnt - scnt
      {
        var wcs := PollCq();
        status := HandleBatch(wcs);
        scnt, rcnt := scnt + Sends(wcs), rcnt + Receives(wcs);
      }
      status := 0;
    }

    /** The client's send loop and the send that follows it. `ws` is what its waits counted; each comes before its
        window and counts at least a window of completions. `out` has how many sends were outstanding after each send:
        the window and the receives counted by then, and one more for the last send after even windows. A send met a
        full queue always when the windows are even, otherwise only if a receive was counted, and never when there are
        fewer sends than the queue holds. */
    method SendLoop(iters: nat) returns (counted: nat, ghost out: seq<int>, ghost ws: seq<Wait>)
      requires Valid() && posted == 0 && done == 0 && received == 0 && !full
      modifies this
      ensures Valid() && posted == iters + 1 && Mix(ws, iters, txDepth) && counted == Arrived(ws)
      ensures |out| == iters + 1 && Logged(out, iters, ws, txDepth)
      ensures forall i :: 0 <= i < iters ==> out[i] <= txDepth + Arrived(ws[..WaitsBefore(i, iters, txDepth)])
      ensures out[iters] <= txDepth + counted + if EvenWindows(iters, txDepth) then 1 else 0
      ensures full <==> Overrun(iters + 1, iters, ws, txDepth)
      ensures full <==> StoodIn(ws, txDepth) || iters - Completed(ws) >= txDepth
      ensures done + received > Completed(ws) + counted
      ensures EvenWindows(iters, txDepth) ==> full
      ensures full ==> iters >= txDepth && (EvenWindows(iters, txDepth) || counted > 0)
    {
      ws, out := [], [];
      var i := 0;
      while i < iters
        invariant 0 <= i <= iters && Sending(i, iters, ws) && InWindow(i, |ws|, txDepth)
        invariant |out| == i && Logged(out, iters, ws, txDepth)
      {
        ghost var before := ws;
        ws := BeforeSend(i, iters, ws);
        LoggedStays(out, iters, before, ws, txDepth);
        OverrunNext(i, iters, ws, txDepth);
        PostSend();
        assert ws[..|ws|] == ws;
        out := out + [Outstanding()];
        i := i + 1;
      }
      LastWaits(iters, |ws|, txDepth);
      OverrunNext(iters, iters, ws, txDepth);
      WindowHolds(ws, txDepth);
      counted := received;
      PostSend();
      assert ws[..|ws|] == ws;
      out := out + [Outstanding()];
      OutstandingBounds(iters, ws, txDepth);
      OverrunIff(iters, ws, txDepth);
      OverrunBounds(iters, ws, txDepth);
      var status := WaitCompletions(1);
    }

    /** Before send `i`, with these waits behind. */
    ghost predicate Sending(i: nat, iters: nat, ws: seq<Wait>)
      reads this
    {
      && Valid() && posted == i && done == Completed(ws) && received == Arrived(ws) && Waits(ws, txDepth)
      && (full <==> Overrun(i, iters, ws, txDepth))
    }

    /** The wait, if there is one, before send `i` of the loop. */
    method BeforeSend(i: nat, iters: nat, ghost ws: seq<Wait>) returns (ghost ws': seq<Wait>)
      requires i < iters && Sending(i, iters, ws) && InWindow(i, |ws|, txDepth)
      modifies this`routs, this`queued, this`done, this`received
      ensures Sending(i, iters, ws') && WaitsBefore(i, iters, txDepth) == |ws'| && InWindow(i + 1, |ws'|, txDepth)
      ensures ws <= ws'
    {
      ws' := ws;
      NextWindow(i, |ws|, txDepth);
      if i != 0 && i % txDepth == 0 {
        var status, next := CountedWait(ws);
        OverrunStays(i, iters, ws, next, txDepth);
        ws' := ws + [next];
      }
      WindowHolds(ws', txDepth);
      WaitsSoFar(i, iters, |ws'|, txDepth);
    }

    /** A wait for a full window, and what it counts. */
    method CountedWait(ghost ws: seq<Wait>) returns (status: int, ghost next: Wait)
      requires Valid() && done == Completed(ws) && received == Arrived(ws) && Waits(ws, txDepth)
      requires posted == (|ws| + 1) * txDepth
      modifies this`routs, this`queued, this`done, this`received
      ensures old(done) <= done && old(received) <= received
      ensures Valid() && done == Completed(ws + [next]) && received == Arrived(ws + [next])
      ensures Waits(ws + [next], txDepth)
    {
      WindowHolds(ws, txDepth);
      status := WaitCompletions(txDepth);
      next := Wait(done - Completed(ws), received - Arrived(ws));
      assert (ws + [next])[..|ws|] == ws;
    }
  }

  // ---------- The window ----------

  /** Send `i` belongs to the window after `w` waits, or is the first of the next. */
  predicate InWindow(i: nat, w: nat, size: nat) {
    w * size <= i <= (w + 1) * size && (i == 0 ==> w == 0) && (i > 0 ==> i > w * size)
  }

  lemma WaitsSoFar(i: nat, iters: nat, w: nat, size: nat)
    requires size > 0 && i < iters && w * size <= i < (w + 1) * size
    ensures WaitsBefore(i, iters, size) == w
  {
    assert (w + 1) * size == w * size + size;
    Quotient(w, i - w * size, size);
  }

  lemma LastWaits(iters: nat, w: nat, size: nat)
    requires size > 0 && InWindow(iters, w, size)
    ensures WaitsBefore(iters, iters, size) == w == if iters == 0 then 0 else (iters - 1) / size
  {
    assert (w + 1) * size == w * size + size;
    if iters > 0 {
      Quotient(w, iters - 1 - w * size, size);
    }
  }

  /** One more wait changes nothing about the sends before. */
  lemma OverrunStays(n: nat, iters: nat, ws: seq<Wait>, next: Wait, size: nat)
    requires size > 0 && n <= iters && n <= (|ws| + 1) * size
    ensures Overrun(n, iters, ws, size) <==> Overrun(n, iters, ws + [next], size)
  {
    forall i | 0 <= i < n ensures WaitsBefore(i, iters, size) <= |ws| {
      BelowMultiple(i, |ws| + 1, size);
    }
    assert forall w :: 0 <= w <= |ws| ==> (ws + [next])[..w] == ws[..w];
  }

  lemma BelowMultiple(i: nat, k: nat, size: nat)
    requires size > 0 && i < k * size
    ensures i / size < k
  {
    var q := i / size;
    assert i == q * size + i % size;
    assert (k - q) * size == k * size - q * size;
    MultipleIsFar(k - q, size);
  }

  lemma LoggedStays(out: seq<int>, iters: nat, ws: seq<Wait>, ws': seq<Wait>, size: nat)
    requires size > 0 && Logged(out, iters, ws, size) && ws <= ws'
    ensures Logged(out, iters, ws', size)
  {
    assert forall w :: 0 <= w <= |ws| ==> ws'[..w] == ws[..w];
  }

  lemma OverrunNext(n: nat, iters: nat, ws: seq<Wait>, size: nat)
    requires size > 0 && WaitsBefore(n, iters, size) == |ws|
    ensures Overrun(n + 1, iters, ws, size) <==> Overrun(n, iters, ws, size) || n - Completed(ws) >= size
  {
    assert ws[..|ws|] == ws;
    if n - Completed(ws) >= size {
      assert !FitsQueue(n, ws[..WaitsBefore(n, iters, size)], size);
    }
  }

  lemma SendInWindow(i: nat, iters: nat, waits: nat, size: nat)
    requires size > 0 && InWindow(iters, waits, size) && i < iters
    ensures WaitsBefore(i, iters, size) <= waits && i < (WaitsBefore(i, iters, size) + 1) * size
  {
    BelowMultiple(i, waits + 1, size);
    assert i == i / size * size + i % size;
    assert (i / size + 1) * size == i / size * size + size;
  }

  /** A receive had stood in for a send before a full window. */
  ghost predicate StoodIn(ws: seq<Wait>, size: nat) {
    exists w {:trigger ws[..w]} :: 0 <= w < |ws| && Completed(ws[..w]) < w * size
  }

  lemma OverrunMeans(i: nat, iters: nat, ws: seq<Wait>, size: nat)
    requires size > 0 && InWindow(iters, |ws|, size) && i < iters && WaitsBefore(i, iters, size) <= |ws|
    requires !FitsQueue(i, ws[..WaitsBefore(i, iters, size)], size)
    ensures StoodIn(ws, size) || iters - Completed(ws) >= size
  {
    SendInWindow(i, iters, |ws|, size);
    var w := WaitsBefore(i, iters, size);
    assert (w + 1) * size == w * size + size;
    if w == |ws| {
      assert ws[..w] == ws;
    }
  }

  /** A send met a full queue exactly when a receive had stood in for a send before a full window, or the sends of the
      last window and the one after them outrun the completions. */
  lemma OverrunIff(iters: nat, ws: seq<Wait>, size: nat)
    requires size > 0 && InWindow(iters, |ws|, size)
    ensures Overrun(iters + 1, iters, ws, size) <==> StoodIn(ws, size) || iters - Completed(ws) >= size
  {
    LastWaits(iters, |ws|, size);
    OverrunNext(iters, iters, ws, size);
    if Overrun(iters, iters, ws, size) {
      var i: nat :| i < iters && WaitsBefore(i, iters, size) <= |ws|
                    && !FitsQueue(i, ws[..WaitsBefore(i, iters, size)], size);
      OverrunMeans(i, iters, ws, size);
    }
    if StoodIn(ws, size) {
      var w: nat :| w < |ws| && Completed(ws[..w]) < w * size;
      LateInWindow(iters, ws, w, size);
    }
  }

  /** The last send of a full window, where a receive has stood in for a send. */
  lemma LateInWindow(iters: nat, ws: seq<Wait>, w: nat, size: nat)
    requires size > 0 && InWindow(iters, |ws|, size) && w < |ws| && Completed(ws[..w]) < w * size
    ensures Overrun(iters + 1, iters, ws, size)
  {
    var i := (w + 1) * size - 1;
    assert (w + 1) * size == w * size + size;
    assert (|ws| - (w + 1)) * size == |ws| * size - (w + 1) * size;
    MultipleIsFar(|ws| - (w + 1), size);
    WaitsSoFar(i, iters, w, size);
    assert !FitsQueue(i, ws[..WaitsBefore(i, iters, size)], size);
  }

  /** After any waits, the sends not yet completed are at most the receives that were counted in their place; so the
      next wait starts with a window of sends outstanding, and the next window fits the send queue exactly when no
      receive has taken a send's place. */
  lemma {:induction false} WindowHolds(ws: seq<Wait>, size: nat)
    requires size > 0 && Waits(ws, size)
    ensures Completed(ws) <= |ws| * size <= Completed(ws) + Arrived(ws)
    ensures (|ws| + 1) * size - Completed(ws) >= size
    ensures (forall i :: |ws| * size <= i < (|ws| + 1) * size ==> FitsQueue(i, ws, size)) <==>
            Completed(ws) == |ws| * size
  {
    if ws != [] {
      WindowHolds(ws[..|ws| - 1], size);
      assert |ws| * size == (|ws| - 1) * size + size;
    }
    assert (|ws| + 1) * size == |ws| * size + size;
    var last := (|ws| + 1) * size - 1;
    assert FitsQueue(last, ws, size) <==> Completed(ws) == |ws| * size;
  }

  lemma {:induction false} WaitsPrefix(ws: seq<Wait>, w: nat, size: nat)
    requires w <= |ws| && Waits(ws, size)
    ensures Waits(ws[..w], size)
  {
    if w < |ws| {
      WaitsPrefix(ws[..|ws| - 1], w, size);
      assert ws[..|ws| - 1][..w] == ws[..w];
    } else {
      assert ws[..w] == ws;
    }
  }

  /** Sends outstanding never exceed the window and the receives counted by then; the send after the loop adds one to a
      full window. */
  lemma OutstandingBounds(iters: nat, ws: seq<Wait>, size: nat)
    requires size > 0 && Waits(ws, size) && InWindow(iters, |ws|, size)
    ensures forall i :: 0 <= i < iters ==>
              && WaitsBefore(i, iters, size) <= |ws|
              && OutAfter(i, iters, ws, size) <= size + Arrived(ws[..WaitsBefore(i, iters, size)])
    ensures iters + 1 - Completed(ws) <= size + Arrived(ws) + if EvenWindows(iters, size) then 1 else 0
  {
    forall i: nat | i < iters
      ensures
        && WaitsBefore(i, iters, size) <= |ws|
        && OutAfter(i, iters, ws, size) <= size + Arrived(ws[..WaitsBefore(i, iters, size)])
    {
      var w := WaitsBefore(i, iters, size);
      SendInWindow(i, iters, |ws|, size);
      WaitsPrefix(ws, w, size);
      WindowHolds(ws[..w], size);
      assert (w + 1) * size == w * size + size;
    }
    WindowHolds(ws, size);
    NextWindow(iters, |ws|, size);
  }

  // ---------- When a send meets a full queue ----------

  lemma NoReceivesMeansSends(ws: seq<Wait>, size: nat)
    requires size > 0 && Waits(ws, size) && Arrived(ws) == 0
    ensures forall w :: 0 <= w <= |ws| ==> Completed(ws[..w]) == w * size
  {
    forall w: nat | w <= |ws| ensures Completed(ws[..w]) == w * size {
      WaitsPrefix(ws, w, size);
      ArrivedGrows(ws, w);
      WindowHolds(ws[..w], size);
    }
  }

  lemma {:induction false} ArrivedGrows(ws: seq<Wait>, w: nat)
    requires w <= |ws|
    ensures Arrived(ws[..w]) <= Arrived(ws)
  {
    if w < |ws| {
      ArrivedGrows(ws[..|ws| - 1], w);
      assert ws[..|ws| - 1][..w] == ws[..w];
    } else {
      assert ws[..w] == ws;
    }
  }

  /** Even windows always overrun the queue; others do so only if a receive was counted, and only after a wait. */
  lemma OverrunBounds(iters: nat, ws: seq<Wait>, size: nat)
    requires size > 0 && Waits(ws, size) && InWindow(iters, |ws|, size)
    ensures EvenWindows(iters, size) ==> Overrun(iters + 1, iters, ws, size)
    ensures Overrun(iters + 1, iters, ws, size) ==> iters >= size && (EvenWindows(iters, size) || Arrived(ws) > 0)
  {
    OverrunIff(iters, ws, size);
    WindowHolds(ws, size);
    NextWindow(iters, |ws|, size);
    if Arrived(ws) == 0 {
      NoReceivesMeansSends(ws, size);
      assert ws[..|ws|] == ws;
    }
    if iters < size {
      MultipleIsFar(|ws|, size);
    }
  }

  lemma LoopWaits(iters: nat, size: nat) returns (w: nat)
    requires size > 0
    ensures w == WaitsBefore(iters, iters, size) && InWindow(iters, w, size)
  {
    w := WaitsBefore(iters, iters, size);
    if iters > 0 {
      assert iters - 1 == w * size + (iters - 1) % size;
      assert (w + 1) * size == w * size + size;
    }
  }

  /** As many waits as asked, each counting only sends, or only receives. */
  function Alike(w: nat, next: Wait): (ws: seq<Wait>)
    ensures |ws| == w
  {
    if w == 0 then [] else Alike(w - 1, next) + [next]
  }

  lemma OneMore(w: nat, a: nat, b: nat)
    requires w > 0
    ensures w * a == (w - 1) * a + a && w * a + w * b == w * (a + b) && w * b >= 0
  {
  }

  lemma {:induction false} AlikeIsMix(w: nat, sends: nat, receives: nat)
    ensures var ws := Alike(w, Wait(sends, receives));
            Completed(ws) == w * sends && Arrived(ws) == w * receives && Waits(ws, sends + receives)
  {
    if w > 0 {
      AlikeIsMix(w - 1, sends, receives);
      var ws := Alike(w, Wait(sends, receives));
      assert ws[..w - 1] == Alike(w - 1, Wait(sends, receives));
      OneMore(w, sends, receives);
      OneMore(w, receives, sends);
    }
  }

  /** Whatever the waits count, a send meets a full queue: exactly when the sends are a multiple of the depth. */
  lemma AlwaysOverrunIff(iters: nat, size: nat)
    requires size > 0
    ensures (forall ws :: Mix(ws, iters, size) ==> Overrun(iters + 1, iters, ws, size)) <==> EvenWindows(iters, size)
  {
    var w := LoopWaits(iters, size);
    if EvenWindows(iters, size) {
      forall ws | Mix(ws, iters, size) ensures Overrun(iters + 1, iters, ws, size) {
        OverrunBounds(iters, ws, size);
      }
    } else {
      var ws := Alike(w, Wait(size, 0));
      AlikeIsMix(w, size, 0);
      OverrunBounds(iters, ws, size);
      assert Mix(ws, iters, size);
    }
  }

  /** No send can meet a full queue, whatever the waits count: exactly when they are fewer than the queue holds. */
  lemma NeverOverrunIff(iters: nat, size: nat)
    requires size > 0
    ensures (forall ws :: Mix(ws, iters, size) ==> !Overrun(iters + 1, iters, ws, size)) <==> iters < size
  {
    var w := LoopWaits(iters, size);
    if iters < size {
      forall ws | Mix(ws, iters, size) ensures !Overrun(iters + 1, iters, ws, size) {
        OverrunBounds(iters, ws, size);
      }
    } else {
      var ws := Alike(w, Wait(0, size));
      AlikeIsMix(w, 0, size);
      OverrunIff(iters, ws, size);
      assert Mix(ws, iters, size);
    }
  }

  /** With the defaults the send after the loop always meets a full queue: nine waits have been made, and though each
      has counted nothing but sends, a hundred are outstanding. */
  lemma DefaultsOverrun(ws: seq<Wait>)
    requires Mix(ws, CYCLES, PACKETS)
    ensures |ws| == 9 && CYCLES - Completed(ws) >= PACKETS
    ensures Overrun(CYCLES + 1, CYCLES, ws, PACKETS)
  {
    OverrunBounds(CYCLES, ws, PACKETS);
    WindowHolds(ws, PACKETS);
  }

  lemma SendsAndReceives(wcs: seq<Wc>)
    ensures Sends(wcs) == multiset(wcs)[SendDone] && Receives(wcs) == multiset(wcs)[Received]
  {
    if wcs != [] {
      SendsAndReceives(wcs[..|wcs| - 1]);
      assert wcs == wcs[..|wcs| - 1] + [wcs[|wcs| - 1]];
    }
  }

  /** The credits after `n` receives: they fall one by one until the one that would leave ten, which fills them up, and
      so on in rounds. Nothing is posted but then. */
  function CreditsLeft(routs: int, rxDepth: int, n: nat): int
    requires rxDepth > 10
  {
    if n < routs - 10 then routs - n else rxDepth - (n - (routs - 10)) % (rxDepth - 10)
  }

  lemma NextInRound(x: nat, d: nat)
    requires d > 0
    ensures (x + 1) % d == if x % d + 1 == d then 0 else x % d + 1
  {
    var q := x / d;
    if x % d + 1 == d {
      assert x + 1 == (q + 1) * d;
      Multiple(q + 1, d);
    } else {
      SmallRemainder(q, x % d + 1, d);
    }
  }

  lemma OneReceiveMore(routs: int, rxDepth: int, n: nat)
    requires 10 < routs <= rxDepth
    ensures CreditsLeft(routs, rxDepth, n + 1) == Credits(CreditsLeft(routs, rxDepth, n), rxDepth)
  {
    if n >= routs - 10 {
      var x := n - (routs - 10);
      NextInRound(x, rxDepth - 10);
      assert n + 1 - (routs - 10) == x + 1;
    } else if n + 1 == routs - 10 {
      SmallRemainder(0, 0, rxDepth - 10);
    }
  }

  /** A batch leaves the credits that its receives alone determine, whatever sends are among them. */
  lemma {:induction false} CreditsAre(routs: int, rxDepth: int, wcs: seq<Wc>)
    requires 10 < routs <= rxDepth
    ensures CreditsAfter(routs, rxDepth, wcs) == CreditsLeft(routs, rxDepth, Receives(wcs))
  {
    if wcs != [] {
      CreditsAre(routs, rxDepth, wcs[..|wcs| - 1]);
      OneReceiveMore(routs, rxDepth, Receives(wcs[..|wcs| - 1]));
    }
  }

  /** The receive credits stay above the low-water mark, so a batch never finds them used up. */
  lemma {:induction false} CreditsHold(routs: int, rxDepth: int, wcs: seq<Wc>)
    requires LOW_WATER < routs <= rxDepth
    ensures LOW_WATER < CreditsAfter(routs, rxDepth, wcs) <= rxDepth
  {
    if wcs != [] {
      CreditsHold(routs, rxDepth, wcs[..|wcs| - 1]);
    }
  }

  /** Within window `w`, a multiple of the window's size is its end. */
  lemma NextWindow(i: nat, w: nat, size: nat)
    requires size > 0 && InWindow(i, w, size)
    ensures i != 0 && i % size == 0 <==> i == (w + 1) * size
    ensures (w + 1 + 1) * size == (w + 1) * size + size && (w + 1) * size == w * size + size
  {
    if i == (w + 1) * size {
      Multiple(w + 1, size);
    } else if i != 0 {
      SmallRemainder(w, i - w * size, size);
    }
  }

  lemma Multiple(k: nat, size: nat)
    requires size > 0
    ensures k * size % size == 0
  {
    SmallRemainder(k, 0, size);
  }

  lemma {:induction false} SendsGrow(wcs: seq<Wc>, i: nat)
    requires i <= |wcs|
    ensures Sends(wcs[..i]) <= Sends(wcs)
    decreases |wcs| - i
  {
    if i < |wcs| {
      SendsGrow(wcs, i + 1);
      assert wcs[..i + 1][..i] == wcs[..i];
    } else {
      assert wcs[..i] == wcs;
    }
  }
}
