/** Block download: windows of requests, retries that halve them, and replies that may be late. */
module Sync {
  import opened Basics

  type Payload(==, !new)

  datatype Block = Block(number: nat, payload: Payload)

  datatype Response = Response(version: nat, blocks: Option<seq<Block>>)

  /** What can happen while a request is out: a message, a wake-up for a reply, a timeout, or a signal to stop. */
  datatype Event = Deliver(res: Response) | Wake | Timeout | Stop

  datatype Outcome = Got(blocks: seq<Block>) | Nothing | Failed | Waiting

  type Chain = nat -> Block

  /** The blocks `lo`, `lo + 1`, ... */
  function Run(chain: Chain, lo: nat, n: nat): (s: seq<Block>)
    ensures |s| == n
  {
    seq(n, i requires 0 <= i < n => chain(lo + i))
  }

  lemma RunJoin(chain: Chain, lo: nat, m: nat, n: nat)
    ensures Run(chain, lo, m) + Run(chain, lo + m, n) == Run(chain, lo, m + n)
  {
  }

  lemma NothingYet(chain: Chain, lo: nat)
    ensures Run(chain, lo, 0) == []
  {
  }

  lemma RunEnds(chain: Chain, lo: nat, n: nat)
    requires n > 0 && Numbered(chain)
    ensures Run(chain, lo, n)[0].number == lo && Run(chain, lo, n)[n - 1].number == lo + n - 1
  {
  }

  ghost predicate Numbered(chain: Chain) {
    forall n: nat :: chain(n).number == n
  }

  /** A reply such as the peer gives to some request, whichever and whenever it was. */
  ghost predicate Honest(chain: Chain, res: Response) {
    res.blocks.Some? ==> exists lo: nat, n: nat :: n > 0 && res.blocks.value == Run(chain, lo, n)
  }

  ghost predicate HonestEvent(chain: Chain, e: Event) {
    e.Deliver? ==> Honest(chain, e.res)
  }

  ghost predicate AllHonest(chain: Chain, events: seq<Event>) {
    forall i :: 0 <= i < |events| ==> HonestEvent(chain, events[i])
  }

  /** What a request leads to: a reply, one made of nil blocks, or a run-time panic. */
  datatype Answer = Reply(res: Response) | NilBlocks(version: nat, count: nat) | Panics

  /** The length of the reply, computed in uint64. */
  function Length(begin: nat, end: nat): nat {
    (end - begin + 1) % TWO_64
  }

  /** All blocks from `lo` up to, but not including, `hi`. */
  ghost predicate AllThere(store: map<nat, Block>, lo: nat, hi: nat) {
    forall i :: lo <= i < hi ==> i in store
  }

  /** The loop counter passes the last uint64, or there is no room from the start, and block 0 is there to be stored. */
  ghost predicate Overruns(store: map<nat, Block>, begin: nat, end: nat) {
    begin <= end == TWO_64 - 1 && 0 in store && (begin == 0 || AllThere(store, begin, end + 1))
  }

  /**
   * The answer to any request, where slices of up to `maxLen` entries can be made.  All blocks asked for in order,
   * or none when one is missing; a request that begins past its end gets nil blocks only; and the run-time panics
   * when the slice is too long or overrun.
   */
  method ProcessRequestBlocks(store: map<nat, Block>, begin: nat, end: nat, version: nat, maxLen: nat,
                              ghost chain: Chain)
    returns (a: Answer)
    requires begin < TWO_64 && end < TWO_64 && forall n :: n in store ==> store[n] == chain(n)
    ensures a.Panics? <==> Length(begin, end) > maxLen || Overruns(store, begin, end)
    ensures a.NilBlocks? <==> begin > end && Length(begin, end) <= maxLen
    ensures a.NilBlocks? ==> a == NilBlocks(version, Length(begin, end))
    ensures a.Reply? ==> a.res.version == version && Honest(chain, a.res)
    ensures a.Reply? ==> (a.res.blocks.Some? <==> AllThere(store, begin, end + 1) && end < TWO_64 - 1)
    ensures a.Reply? && a.res.blocks.Some? ==> a.res.blocks.value == Run(chain, begin, end - begin + 1)
  {
    var length := Length(begin, end);
    if length > maxLen {
      return Panics;
    }
    if begin > end {
      return NilBlocks(version, length);
    }
    var blocks: seq<Block> := [];
    var i := begin;
    ghost var wrapped := false;
    while i <= end
      invariant i < TWO_64 && |blocks| <= length
      invariant wrapped ==>
        i == 0 && end == TWO_64 - 1 && 0 < begin && |blocks| == length && AllThere(store, begin, end + 1)
      invariant !wrapped ==> begin <= i <= end + 1 && blocks == Run(chain, begin, i - begin)
      invariant !wrapped ==> AllThere(store, begin, i)
      decreases if wrapped then 0 else end + 1 - i, !wrapped
    {
      if i !in store {
        return Reply(Response(version, None));
      }
      if |blocks| >= length {
        return Panics;
      }
      RunSnoc(chain, begin, i - begin);
      blocks := blocks + [store[i]];
      if i == TWO_64 - 1 {
        wrapped := true;
      }
      i := (i + 1) % TWO_64;
    }
    a := Reply(Response(version, Some(blocks)));
  }

  lemma RunSnoc(chain: Chain, lo: nat, n: nat)
    ensures Run(chain, lo, n) + [chain(lo + n)] == Run(chain, lo, n + 1)
  {
  }

  /** A reply is taken exactly when it spans the window asked for last, and then it is that window. */
  lemma TakenReply(chain: Chain, res: Response, begin: nat, end: nat)
    requires Numbered(chain) && Honest(chain, res) && res.blocks.Some?
    ensures |res.blocks.value| > 0
    ensures
      var b := res.blocks.value;
      b[0].number == begin && b[|b| - 1].number == end ==>
        begin <= end && b == Run(chain, begin, end - begin + 1)
  {
    var lo: nat, n: nat :| n > 0 && res.blocks.value == Run(chain, lo, n);
  }

  /** What is made of a reply: an answer without blocks ends the window, one that spans it is taken, others are not. */
  function Judged(res: Response, begin: nat, end: nat): Option<Outcome>
    requires begin <= end
  {
    if res.blocks.None? then Some(Nothing)
    else if Spans(res, begin, end - begin + 1) then Some(Got(res.blocks.value))
    else None
  }

  lemma Judgement(chain: Chain, res: Response, begin: nat, end: nat)
    requires Numbered(chain) && Honest(chain, res) && begin <= end
    ensures
      var whole := Run(chain, begin, end - begin + 1);
      Judged(res, begin, end) ==
        if res.blocks.None? then Some(Nothing)
        else if Spans(res, begin, end - begin + 1) then Some(Got(whole)) else None
    ensures res.blocks == Some(Run(chain, begin, end - begin + 1)) ==> Spans(res, begin, end - begin + 1)
  {
    hide Honest, Run, Numbered;
    RunEnds(chain, begin, end - begin + 1);
    if res.blocks.Some? {
      TakenReply(chain, res, begin, end);
    }
  }

  function Wrap8(n: int): int {
    (n + 128) % 256 - 128
  }

  function Half(n: nat): (h: nat)
    ensures h >= 1
  {
    if n / 2 < 1 then 1 else n / 2
  }

  lemma HalfShrinks(m: nat, n: nat)
    requires 1 <= m <= n
    ensures Half(m) <= Half(n) && Half(m) <= m && (Half(n) == n / 2 || n == 1)
  {
  }

  /** A wait that ends with a reply: it is delivered and then read. */
  ghost predicate Answered(events: seq<Event>, i: nat, res: Response) {
    i + 1 < |events| && events[i] == Deliver(res) && events[i + 1] == Wake
  }

  /** Versions are uint64 and wrap. */
  function Later(v: nat, k: nat): nat {
    (v + k) % TWO_64
  }

  lemma LaterStep(v: nat, k: nat)
    ensures Later(Later(v, k), 1) == Later(v, k + 1) && (v < TWO_64 ==> Later(v, 0) == v)
  {
  }

  /** The interval after `k` requests in a row have timed out. */
  function HalvedBy(n: nat, k: nat): nat {
    if k == 0 then n else if k <= 2 then Half(n) else Half(Half(n))
  }

  // ---------- Driving a window ----------

  /** The reply spans the window of `h` blocks from `begin`. */
  predicate Spans(res: Response, begin: nat, h: nat) {
    && res.blocks.Some? && var b := res.blocks.value;
       |b| > 0 && b[0].number == begin && b[|b| - 1].number + 1 == begin + h
  }

  /** The first of the replies that spans the window, or their number when none does. */
  function FirstSpan(left: seq<Response>, begin: nat, h: nat): (j: nat)
    ensures j <= |left| && (j < |left| ==> Spans(left[j], begin, h))
    ensures forall i :: 0 <= i < j ==> !Spans(left[i], begin, h)
  {
    if left == [] || Spans(left[0], begin, h) then 0 else 1 + FirstSpan(left[1..], begin, h)
  }

  /** No reply says that blocks are missing. */
  predicate NoRefusals(left: seq<Response>) {
    forall i :: 0 <= i < |left| ==> left[i].blocks.Some?
  }

  /** A window and an interval after some halvings: within the old window or the half of the old interval. */
  ghost predicate Within(begin: nat, end: nat, n: nat, end': nat, n': nat) {
    n' <= n && begin <= end' && (end' <= end || end' < begin + Half(n))
  }

  lemma NotHalved(begin: nat, end: nat, n: nat)
    requires begin <= end
    ensures Within(begin, end, n, end, n)
  {
  }

  lemma WithinStep(begin: nat, end: nat, n: nat, end': nat, n': nat, end'': nat, n'': nat)
    requires Within(begin, end, n, end', n') && Within(begin, end', n', end'', n'') && 1 <= n'
    ensures Within(begin, end, n, end'', n'')
  {
    HalfShrinks(n', n);
  }

  /** A window that is within a larger half stays within the window asked for when that half does. */
  lemma WithinWindow(begin: nat, end: nat, n: nat, end': nat, n': nat)
    requires Within(begin, end, n, end', n') && begin <= end && n >= 1
    ensures begin <= end' && (n / 2 <= end - begin + 1 ==> end' <= end)
    ensures end' < begin + n || end' <= end
  {
    HalfShrinks(n, n);
  }

  /** What a request depends on and changes. */
  datatype Standing = Standing(channel: seq<Response>, version: nat, interval: nat, end: nat)

  /** How a request ends that times out, that finds a reply left over, or that is answered. */
  ghost predicate Reacted(chain: Chain, events: seq<Event>, start: nat, begin: nat, sent: int, was: Standing,
                          now: Standing, r: Option<Outcome>, sent': int, i: nat, stopped: bool)
  {
    && (start < |events| && events[start] == Timeout && 0 <= sent < 4 ==>
         && r == None && i == start + 1 && now.channel == was.channel && !stopped && sent' == sent + 1
         && now.version == Later(was.version, 1)
         && if sent == 0 || sent == 2 then
              now.interval == Half(was.interval) && now.end == begin + Half(was.interval) - 1
            else now.interval == was.interval && now.end == was.end)
    && (start < |events| && events[start] == Wake && was.channel != [] && was.channel[0].blocks.Some? &&
        begin <= was.end ==>
         && (Spans(was.channel[0], begin, was.end - begin + 1) ==>
              r == Some(Got(Run(chain, begin, was.end - begin + 1))))
         && (!Spans(was.channel[0], begin, was.end - begin + 1) ==> r == None)
         && i == start + 1 && !stopped && now == was.(channel := was.channel[1..], version := Later(was.version, 1)))
    && (begin <= was.end && was.channel == [] &&
        Answered(events, start, Response(was.version, Some(Run(chain, begin, was.end - begin + 1)))) ==>
         && r == Some(Got(Run(chain, begin, was.end - begin + 1))) && i == start + 2 && !stopped
         && now.channel == [] && now.version == Later(was.version, 1))
  }

  /**
   * A course of events for a request of `window` blocks, when `left` is left over in the channel, the next request
   * has version `v` and the interval is `n`: `lost` timeouts, or none; then what is left over is read, up to a reply
   * that happens to span the halved window; and if there is none, that window is delivered and read.
   */
  datatype Course = Course(
    chain: Chain, events: seq<Event>, start: nat, v: nat, n: nat, lost: nat, left: seq<Response>, begin: nat,
    window: nat)
  {
    /** How many blocks are asked for after `k` timeouts. */
    ghost function Asked(k: nat): nat {
      if k == 0 then window else HalvedBy(n, k)
    }

    ghost function Size(): nat {
      Asked(lost)
    }

    /** How many leftover replies do not fit. */
    ghost function Skipped(): nat {
      FirstSpan(left, begin, Size())
    }

    ghost function Rest(): seq<Response> {
      if Skipped() < |left| then left[Skipped() + 1..] else []
    }

    ghost function Length(): nat {
      lost + Skipped() + if Skipped() < |left| then 1 else 2
    }

    ghost function Window(): seq<Event> {
      OneWindow(chain, v, begin, Size(), lost, Skipped(), Skipped() < |left|)
    }

    ghost predicate Happens() {
      && lost <= 4 && v < TWO_64 && window > 0 && NoRefusals(left)
      && start + Length() <= |events| && events[start..start + Length()] == Window()
    }

    lemma EventAt(k: nat)
      requires Happens() && k < Length()
      ensures |Window()| == Length() && events[start + k] == Window()[k]
    {
      hide OneWindow, Course.Size, Course.Skipped, NoRefusals;
      WindowAt(chain, v, begin, Size(), lost, Skipped(), Skipped() < |left|, k);
      assert events[start..start + Length()][k] == events[start + k];
    }

    /** Where the retries stand after `tries` requests without the window. */
    ghost predicate At(tries: nat, sent: int, i: nat, now: Standing) {
      var t := if tries < lost then tries else lost;
      && tries <= lost + Skipped() && i == start + tries && now.version == Later(v, tries)
      && now.interval == HalvedBy(n, t) && now.end + 1 == begin + Asked(t)
      && (tries <= lost ==> sent == tries && now.channel == left)
      && (tries > lost ==> now.channel == left[tries - lost..])
    }

    /** The window has come, and this is left. */
    ghost predicate Finished(r: Outcome, i: nat, channel: seq<Response>, version: nat) {
      && r == Got(Run(chain, begin, Size())) && i == start + Length()
      && channel == Rest() && version == Later(v, lost + Skipped() + 1)
    }

    lemma Starts(end: nat)
      requires Happens() && end + 1 == begin + window
      ensures At(0, 0, start, Standing(left, v, n, end))
    {
    }

    /** What comes next. */
    lemma Next(tries: nat, sent: int, i: nat, now: Standing)
      requires Happens() && At(tries, sent, i, now)
      ensures i < |events| && tries <= lost + Skipped()
      ensures tries < lost ==> events[i] == Timeout && sent == tries < 4
      ensures tries >= lost ==> now.end == begin + Size() - 1 && begin <= now.end
      ensures lost <= tries && now.channel != [] ==>
        && events[i] == Wake && now.channel[0].blocks.Some?
        && (Spans(now.channel[0], begin, Size()) <==> tries == lost + Skipped())
      ensures lost <= tries && now.channel == [] ==>
        && tries == lost + Skipped()
        && Answered(events, i, Response(now.version, Some(Run(chain, begin, Size()))))
      ensures tries == lost + Skipped() ==> Rest() == (if now.channel == [] then [] else now.channel[1..])
    {
      hide OneWindow, HalvedBy, Later, Run, Spans;
      SizePositive();
      WindowAt(chain, v, begin, Size(), lost, Skipped(), Skipped() < |left|, tries);
      EventAt(tries);
      if tries == lost + Skipped() && Skipped() == |left| {
        EventAt(tries + 1);
      }
    }

    lemma SizePositive()
      requires window > 0
      ensures Size() >= 1
    {
    }

    lemma TimedOut(tries: nat, sent: int, i: nat, was: Standing, now: Standing)
      requires Happens() && At(tries, sent, i, was) && tries < lost
      requires now.channel == was.channel && now.version == Later(was.version, 1)
      requires
        if sent == 0 || sent == 2 then now.interval == Half(was.interval) && now.end == begin + Half(was.interval) - 1
        else now.interval == was.interval && now.end == was.end
      ensures At(tries + 1, sent + 1, i + 1, now)
    {
      LaterStep(v, tries);
    }

    lemma Passed(tries: nat, sent: int, i: nat, was: Standing, sent': int)
      requires Happens() && At(tries, sent, i, was) && lost <= tries < lost + Skipped()
      ensures was.channel != []
      ensures At(tries + 1, sent', i + 1, was.(channel := was.channel[1..], version := Later(was.version, 1)))
    {
      LaterStep(v, tries);
    }

    lemma Over(tries: nat, sent: int, i: nat, was: Standing)
      requires Happens() && At(tries, sent, i, was) && tries == lost + Skipped()
      ensures Later(was.version, 1) == Later(v, lost + Skipped() + 1)
      ensures start + Length() == i + if was.channel == [] then 2 else 1
    {
      LaterStep(v, tries);
    }

    /** One request takes the course further, or to its end. */
    lemma Advance(tries: nat, sent: int, i: nat, was: Standing, now: Standing, r: Option<Outcome>, sent': int, i': nat,
                  stopped: bool)
      requires Happens() && At(tries, sent, i, was)
      requires Reacted(chain, events, i, begin, sent, was, now, r, sent', i', stopped)
      ensures !stopped && if r == None then At(tries + 1, sent', i', now)
                          else Finished(r.value, i', now.channel, now.version)
    {
      hide Course.Happens, Course.At, Course.Size, Course.Skipped, Course.Rest, Course.Length, Course.Window;
      hide Spans, Run, Later, Half, Answered;
      Next(tries, sent, i, was);
      if tries < lost {
        TimedOut(tries, sent, i, was, now);
      } else if tries < lost + Skipped() {
        Passed(tries, sent, i, was, sent');
      } else {
        Over(tries, sent, i, was);
      }
    }
  }

  class SyncChain {
    const maxCount: nat
    var interval: map<nat, nat>
    var version: nat
    var channel: seq<Response>
    var exitTask: bool
    var notified: seq<Block>

    ghost predicate Valid(chain: Chain)
      reads `interval, `version, `channel
    {
      && maxCount > 0 && version < TWO_64
      && (forall p :: p in interval ==> 1 <= interval[p] <= maxCount)
      && (forall i :: 0 <= i < |channel| ==> Honest(chain, channel[i]))
    }

    /** The next reply to be read says that blocks are missing. */
    ghost predicate RefusalAhead()
      reads `channel
    {
      channel != [] && channel[0].blocks.None?
    }

    constructor (max: nat, ghost chain: Chain)
      requires max > 0
      ensures Valid(chain) && channel == [] && !exitTask && notified == [] && maxCount == max && interval == map[]
      ensures version == 0
    {
      maxCount, interval, version, channel, exitTask, notified := max, map[], 0, [], false, [];
    }

    /** Only a reply to the latest request gets into the channel. */
    method HandlerMessage(res: Response, ghost chain: Chain)
      requires Valid(chain) && Honest(chain, res)
      modifies `channel
      ensures Valid(chain)
      ensures channel == if (version - 1) % TWO_64 == res.version then old(channel) + [res] else old(channel)
    {
      if (version - 1) % TWO_64 == res.version {
        channel := channel + [res];
      }
    }

    /**
     * Waits for a reply or a timeout; messages that arrive meanwhile are handled.  A reply that is read was left
     * over from before the wait, or answers the latest request.
     */
    method Await(events: seq<Event>, start: nat, ghost chain: Chain)
      returns (i: nat, timeout: bool, reply: Option<Response>)
      requires Valid(chain) && start <= |events| && AllHonest(chain, events)
      modifies `channel, `exitTask
      ensures Valid(chain) && start <= i <= |events|
      ensures reply.Some? ==> !timeout && Honest(chain, reply.value)
      ensures i == start ==> !timeout && reply.None?
      ensures reply.None? && !timeout ==> i == |events|
      ensures reply.Some? ==> reply.value in old(channel) || reply.value.version == (version - 1) % TWO_64
      ensures forall r :: r in channel ==> r in old(channel) || r.version == (version - 1) % TWO_64
      ensures start < |events| && events[start] == Timeout ==>
        i == start + 1 && timeout && channel == old(channel) && exitTask == old(exitTask)
      ensures old(channel) != [] ==>
        if reply.Some? then reply.value == old(channel)[0] else old(channel) <= channel
      ensures start < |events| && events[start] == Wake && old(channel) != [] ==>
        i == start + 1 && reply.Some? && channel == old(channel)[1..] && exitTask == old(exitTask)
      ensures forall res ::
        Answered(events, start, res) && old(channel) == [] && res.version == (version - 1) % TWO_64 ==>
          i == start + 2 && reply == Some(res) && channel == [] && exitTask == old(exitTask)
    {
      hide Honest;
      i, timeout, reply := start, false, None;
      while i < |events|
        invariant Valid(chain) && start <= i <= |events|
        invariant forall r :: r in channel ==> r in old(channel) || r.version == (version - 1) % TWO_64
        invariant i == start ==> channel == old(channel) && exitTask == old(exitTask)
        invariant i > start ==> events[start] != Timeout
        invariant old(channel) <= channel
        invariant i > start && events[start] == Wake ==> old(channel) == []
        invariant forall res ::
          Answered(events, start, res) && old(channel) == [] && res.version == (version - 1) % TWO_64 ==>
            i == start || (i == start + 1 && channel == [res] && exitTask == old(exitTask))
      {
        var e := events[i];
        assert HonestEvent(chain, e);
        i := i + 1;
        match e {
          case Deliver(res) => HandlerMessage(res, chain);
          case Stop => exitTask := true;
          case Timeout => return i, true, None;
          case Wake =>
            if channel != [] {
              reply := Some(channel[0]);
              channel := channel[1..];
              return i, false, reply;
            }
        }
      }
    }

    /**
     * One request and its outcome.  After a timeout the window may be halved, from the interval kept for the
     * peer; a reply is taken when it spans the window.
     */
    method Attempt(begin: nat, end: nat, sent: int, peer: nat, events: seq<Event>, start: nat, ghost chain: Chain)
      returns (r: Option<Outcome>, end': nat, sent': int, i: nat)
      requires Valid(chain) && Numbered(chain) && start <= |events| && begin <= end && peer in interval
      requires AllHonest(chain, events)
      modifies `channel, `exitTask, `version, `interval
      ensures Valid(chain) && start <= i <= |events| && interval.Keys == old(interval).Keys
      ensures r == None ==> i > start && begin <= end' && sent' == Wrap8(sent + 1)
      ensures r == None ==> Within(begin, end, old(interval)[peer], end', interval[peer])
      ensures r != None && r.value.Got? ==> i > start && r.value.blocks == Run(chain, begin, end - begin + 1)
      ensures old(RefusalAhead()) ==> !(r.Some? && r.value.Got?) && (r == None ==> RefusalAhead())
      ensures !old(exitTask) ==>
        var before := Standing(old(channel), old(version), old(interval)[peer], end);
        var after := Standing(channel, version, interval[peer], end');
        Reacted(chain, events, start, begin, sent, before, after, r, sent', i, exitTask)
    {
      hide Honest, Numbered, Run, Judged, Spans, Half, AllHonest, Valid, Later;
      end' := end;
      CountRequest(chain);
      sent' := Wrap8(sent + 1);
      if exitTask {
        exitTask := false;
        CountRequest(chain);
        return Some(Failed), end', sent', start;
      }
      var timeout, reply;
      i, timeout, reply := Await(events, start, chain);
      if !timeout && reply.None? {
        return Some(Waiting), end', sent', i;
      }
      Sane(peer, chain);
      HalfShrinks(old(interval)[peer], old(interval)[peer]);
      if reply.Some? {
        Judgement(chain, reply.value, begin, end);
        r := Judged(reply.value, begin, end);
      } else {
        r, end' := OnTimeout(begin, end, sent', peer, chain);
      }
    }

    method CountRequest(ghost chain: Chain)
      requires Valid(chain)
      modifies `version
      ensures Valid(chain) && version == Later(old(version), 1) && (version - 1) % TWO_64 == old(version)
    {
      version := (version + 1) % TWO_64;
    }

    /** The first and third timeouts halve the window, from the interval of the peer; the fifth is the last. */
    method OnTimeout(begin: nat, end: nat, sent: int, peer: nat, ghost chain: Chain)
      returns (r: Option<Outcome>, end': nat)
      requires Valid(chain) && peer in interval && begin <= end
      modifies `interval
      ensures Valid(chain) && interval.Keys == old(interval).Keys && begin <= end'
      ensures r == if sent == 5 then Some(Failed) else None
      ensures if sent == 1 || sent == 3 then Shrunk(begin, end', old(interval), peer)
              else end' == end && interval == old(interval)
    {
      end' := end;
      if sent == 1 || sent == 3 {
        var half := interval[peer] / 2;
        if half < 1 {
          half := 1;
        }
        interval := interval[peer := half];
        end' := begin + half - 1;
      }
      r := if sent == 5 then Some(Failed) else None;
    }

    /** The interval has been halved and is the window. */
    ghost predicate Shrunk(begin: nat, end: nat, was: map<nat, nat>, peer: nat)
      requires peer in was
      reads `interval
    {
      interval == was[peer := Half(was[peer])] && end == begin + Half(was[peer]) - 1
    }

    /**
     * One window.  Whatever is lost, late, repeated or out of date, what comes back starts at `begin`,
     * is the chain, and is no longer than the largest window.  It stays within the window asked for unless half
     * the interval is more than that.  After `lost` timeouts in a row the halved window is what comes back, and
     * when nothing is lost it is the window asked for.
     */
    method GetRemoteBlocks(begin: nat, end: nat, peer: nat, events: seq<Event>, start: nat, ghost chain: Chain,
                           ghost lost: nat)
      returns (r: Outcome, i: nat)
      requires Valid(chain) && Numbered(chain) && start <= |events|
      requires AllHonest(chain, events)
      requires begin <= end < begin + maxCount && peer in interval
      modifies `channel, `exitTask, `version, `interval
      ensures Valid(chain) && start <= i <= |events| && interval.Keys == old(interval).Keys
      ensures r.Got? ==> 0 < |r.blocks| <= maxCount && r.blocks == Run(chain, begin, |r.blocks|)
      ensures r.Got? ==> i > start
      ensures r.Got? && old(interval)[peer] / 2 <= end - begin + 1 ==> |r.blocks| <= end - begin + 1
      ensures old(RefusalAhead()) ==> !r.Got?
      ensures
        var window := end - begin + 1;
        var c := Course(chain, events, start, old(version), old(interval)[peer], lost, old(channel), begin, window);
        c.Happens() && !old(exitTask) ==> !exitTask && c.Finished(r, i, channel, version)
    {
      hide *;
      NotHalved(begin, end, interval[peer]);
      Sane(peer, chain);
      var sent, tmpEnd := 0, end;
      i := start;
      ghost var n := interval[peer];
      ghost var c := Course(chain, events, start, version, n, lost, channel, begin, end - begin + 1);
      ghost var scripted, tries := c.Happens() && !exitTask, 0;
      if scripted {
        c.Starts(end);
      }
      while true
        invariant Valid(chain) && start <= i <= |events|
        invariant interval.Keys == old(interval).Keys && begin <= tmpEnd
        invariant Within(begin, end, n, tmpEnd, interval[peer])
        invariant old(RefusalAhead()) ==> RefusalAhead()
        invariant scripted ==> !exitTask && c.At(tries, sent, i, Standing(channel, version, interval[peer], tmpEnd))
        decreases |events| - i
      {
        Sane(peer, chain);
        WithinWindow(begin, end, n, tmpEnd, interval[peer]);
        ghost var was, at := Standing(channel, version, interval[peer], tmpEnd), i;
        var got, end', sent', j := Attempt(begin, tmpEnd, sent, peer, events, i, chain);
        i := j;
        if scripted {
          var now := Standing(channel, version, interval[peer], end');
          c.Advance(tries, sent, at, was, now, got, sent', j, exitTask);
        }
        if got.Some? {
          return got.value, i;
        }
        WithinStep(begin, end, n, tmpEnd, was.interval, end', interval[peer]);
        tmpEnd, sent, tries := end', sent', tries + 1;
      }
    }

    /** The interval the next request starts from; the difference of the bounds is unsigned. */
    ghost function NextInterval(begin: nat, lastEnd: nat, peer: nat): nat
      reads `interval
    {
      if peer in interval && (lastEnd - begin) % TWO_64 <= 20 then interval[peer] else maxCount
    }

    /** The window to ask for next. */
    method NextWindow(begin: nat, lastEnd: nat, end: nat, peer: nat, ghost chain: Chain) returns (windowEnd: nat)
      requires Valid(chain) && begin <= end
      modifies `interval
      ensures Valid(chain) && peer in interval && begin <= windowEnd <= end && windowEnd < begin + maxCount
      ensures interval == old(interval)[peer := old(NextInterval(begin, lastEnd, peer))]
      ensures windowEnd == if begin + interval[peer] <= end then begin + interval[peer] - 1 else end
    {
      var n := if peer in interval then interval[peer] else 0;
      if peer !in interval || (lastEnd - begin) % TWO_64 > 20 {
        n := maxCount;
        interval := interval[peer := n];
      }
      windowEnd := if end - begin + 1 > n then begin + n - 1 else end;
    }

    /**
     * A whole download.  The blocks handed on are `begin`, `begin + 1`, ... of the peer's chain, each once
     * and in order; when it ends by itself they reach at least to `end`, and never a full window beyond.  They
     * stop at `end` whatever happens exactly when the download is `Bounded`, also with replies of earlier downloads
     * left over, unless one of them says that blocks are missing.  With up to four replies lost in each window, as
     * `losses` says, and the next one delivered, it always ends by itself, and just at the end when none is lost.
     */
    method SyncBlock(begin: nat, end: nat, peer: nat, events: seq<Event>, ghost chain: Chain, ghost losses: Losses)
      returns (r: Outcome, ghost n: nat)
      requires Valid(chain) && Numbered(chain) && begin <= end < TWO_64
      requires AllHonest(chain, events)
      modifies this
      ensures Valid(chain)
      ensures notified == old(notified) + Run(chain, begin, n)
      ensures r.Got? ==> begin + n > end
      ensures begin + n <= end + maxCount
      ensures Bounded(maxCount, old(NextInterval(begin, end, peer)), begin, end) ==> begin + n <= end + 1
      ensures old(RefusalAhead()) ==> n == 0
      ensures
        var first := old(NextInterval(begin, end, peer));
        && !old(exitTask) && NoRefusals(old(channel))
        && events == Script(chain, old(version), begin, end, first, maxCount, old(channel), losses) ==>
          && r.Got? && begin + n == Reach(begin, end, first, maxCount, losses)
          && (NothingLost(losses) ==> n == end - begin + 1)
    {
      hide Honest, Run, Numbered, Valid, Script, Reach, NextInterval, OnScript, NoRefusals, RefusalAhead, AllHonest;
      hide NothingLost;
      NothingYet(chain, begin);
      ghost var first := NextInterval(begin, end, peer);
      ghost var bounded := Bounded(maxCount, first, begin, end);
      ghost var scripted := !exitTask && NoRefusals(channel) &&
        events == Script(chain, version, begin, end, first, maxCount, channel, losses);
      ghost var goal := Reach(begin, end, first, maxCount, losses);
      if NothingLost(losses) {
        PromptReach(begin, end, first, maxCount, losses);
      }
      FirstWindow(begin, end, peer, events, chain, losses);
      var next: nat, lastEnd: nat, i: nat := begin, end, 0;
      n := 0;
      assert notified == old(notified) + Run(chain, begin, 0);
      while true
        invariant Valid(chain) && i <= |events| && begin <= next <= end && n == next - begin
        invariant notified == old(notified) + Run(chain, begin, n)
        invariant bounded ==> NextInterval(next, lastEnd, peer) / 2 <= end - next + 1
        invariant scripted ==> OnScript(chain, events, i, next, lastEnd, end, peer, losses)
        invariant Reach(next, end, NextInterval(next, lastEnd, peer), maxCount, losses) == goal || !scripted
        invariant old(RefusalAhead()) ==> n == 0 && RefusalAhead()
        decreases |events| - i
      {
        var got, j;
        ReachIs(next, end, NextInterval(next, lastEnd, peer), maxCount, losses);
        got, lastEnd, j := SyncWindow(next, lastEnd, end, peer, events, i, chain, losses);
        if !got.Got? {
          return got, n;
        }
        RunJoin(chain, begin, n, |got.blocks|);
        n := n + |got.blocks|;
        i, next := j, lastEnd + 1;
        if next > end {
          return got, n;
        }
        LaterWindow(next, lastEnd, peer);
      }
    }

    /** A request to download: stop signals from before it are cleared, replies from before it are not. */
    method BlockSyncProcess(begin: nat, end: nat, peer: nat, events: seq<Event>, ghost chain: Chain,
                            ghost losses: Losses)
      returns (r: Outcome, ghost n: nat)
      requires Valid(chain) && Numbered(chain) && begin <= end < TWO_64
      requires AllHonest(chain, events)
      modifies this
      ensures Valid(chain) && notified == old(notified) + Run(chain, begin, n)
      ensures (r.Got? ==> begin + n > end) && begin + n <= end + maxCount
      ensures old(RefusalAhead()) ==> n == 0
      ensures Bounded(maxCount, old(NextInterval(begin, end, peer)), begin, end) ==> begin + n <= end + 1
      ensures
        var first := old(NextInterval(begin, end, peer));
        && NoRefusals(old(channel))
        && events == Script(chain, old(version), begin, end, first, maxCount, old(channel), losses) ==>
          && r.Got? && begin + n == Reach(begin, end, first, maxCount, losses)
          && (NothingLost(losses) ==> n == end - begin + 1)
    {
      hide Run, Numbered, Script, Reach, NothingLost, NoRefusals;
      exitTask := false;
      r, n := SyncBlock(begin, end, peer, events, chain, losses);
    }

    /** The download has followed the script so far. */
    ghost predicate OnScript(chain: Chain, events: seq<Event>, i: nat, next: nat, lastEnd: nat, end: nat, peer: nat,
                             losses: Losses)
      requires i <= |events| && next <= end
      reads `interval, `version, `channel, `exitTask
    {
      && !exitTask && NoRefusals(channel)
      && events[i..] == Script(chain, version, next, end, NextInterval(next, lastEnd, peer), maxCount, channel, losses)
    }

    /** One window of the download, handed on when it came. */
    method SyncWindow(next: nat, last: nat, end: nat, peer: nat, events: seq<Event>, start: nat, ghost chain: Chain,
                      ghost losses: Losses)
      returns (got: Outcome, lastEnd: nat, i: nat)
      requires Valid(chain) && Numbered(chain) && next <= end && start <= |events|
      requires AllHonest(chain, events)
      modifies this
      ensures Valid(chain) && start <= i <= |events|
      ensures !got.Got? ==> notified == old(notified)
      ensures got.Got? ==>
        && i > start && 0 < |got.blocks| <= maxCount && got.blocks == Run(chain, next, |got.blocks|)
        && notified == old(notified) + got.blocks && lastEnd + 1 == next + |got.blocks|
      ensures got.Got? && old(NextInterval(next, last, peer)) / 2 <= end - next + 1 ==> lastEnd <= end
      ensures old(RefusalAhead()) ==> !got.Got?
      ensures old(OnScript(chain, events, start, next, last, end, peer, losses)) ==>
        && got.Got? && |got.blocks| == Stride(old(NextInterval(next, last, peer)), losses(next), end - next + 1)
        && (lastEnd < end ==> OnScript(chain, events, i, lastEnd + 1, lastEnd, end, peer, losses))
    {
      hide *;
      Sane(peer, chain);
      ghost var n := NextInterval(next, last, peer);
      IntervalIsPositive(next, last, peer, chain);
      ghost var scripted := OnScript(chain, events, start, next, last, end, peer, losses);
      ghost var window := if n < end - next + 1 then n else end - next + 1;
      ghost var c := Course(chain, events, start, version, n, losses(next), channel, next, window);
      if scripted {
        Unfold(chain, events, start, next, last, end, peer, losses);
        ScriptStarts(chain, events, start, version, next, end, n, maxCount, channel, losses);
      }
      lastEnd := NextWindow(next, last, end, peer, chain);
      Sane(peer, chain);
      assert lastEnd - next + 1 == window;
      got, i := GetRemoteBlocks(next, lastEnd, peer, events, start, chain, losses(next));
      if scripted {
        CourseEnds(c, got, i, channel, version);
      }
      if got.Got? {
        lastEnd := got.blocks[|got.blocks| - 1].number;
        RunEnds(chain, next, |got.blocks|);
        Notify(got.blocks);
        if lastEnd < end {
          LaterWindow(lastEnd + 1, lastEnd, peer);
          Unfold(chain, events, i, lastEnd + 1, lastEnd, end, peer, losses);
        }
      }
    }

    lemma IntervalIsPositive(next: nat, last: nat, peer: nat, chain: Chain)
      requires Valid(chain)
      ensures NextInterval(next, last, peer) > 0
    {
    }

    lemma Unfold(chain: Chain, events: seq<Event>, i: nat, next: nat, lastEnd: nat, end: nat, peer: nat,
                 losses: Losses)
      requires i <= |events| && next <= end
      ensures
        var n := NextInterval(next, lastEnd, peer);
        OnScript(chain, events, i, next, lastEnd, end, peer, losses) <==>
          && !exitTask && NoRefusals(channel)
          && events[i..] == Script(chain, version, next, end, n, maxCount, channel, losses)
    {
    }

    lemma Sane(peer: nat, chain: Chain)
      requires Valid(chain)
      ensures version < TWO_64 && (peer in interval ==> 1 <= interval[peer] <= maxCount)
    {
    }

    lemma FirstWindow(begin: nat, end: nat, peer: nat, events: seq<Event>, chain: Chain, losses: Losses)
      requires Valid(chain) && begin <= end
      ensures
        var n := NextInterval(begin, end, peer);
        && (Bounded(maxCount, n, begin, end) ==> n / 2 <= end - begin + 1)
        && (!exitTask && NoRefusals(channel) &&
            events == Script(chain, version, begin, end, n, maxCount, channel, losses) ==>
              OnScript(chain, events, 0, begin, end, end, peer, losses))
    {
      assert events[0..] == events;
    }

    /** After the first window the next interval is always the largest, because the difference wraps. */
    lemma LaterWindow(next: nat, lastEnd: nat, peer: nat)
      requires next == lastEnd + 1
      ensures NextInterval(next, lastEnd, peer) == maxCount
    {
      assert (lastEnd - next) % TWO_64 == TWO_64 - 1;
    }

    /** Hands the blocks on one by one. */
    method Notify(blocks: seq<Block>)
      modifies `notified
      ensures notified == old(notified) + blocks
    {
      for k := 0 to |blocks|
        invariant notified == old(notified) + blocks[..k]
      {
        notified := notified + [blocks[k]];
      }
    }
  }

  /**
   * No run of the download can go beyond its end: the largest window is below four, or there is one block to
   * fetch and the first interval is below four.
   */
  predicate Bounded(max: nat, first: nat, begin: nat, end: nat) {
    max < 4 || (begin == end && first < 4)
  }

  /** How many replies in a row are lost, by the first block of the window: four at most. */
  type Losses = nat -> Loss

  type Loss = k: nat | k <= 4

  ghost predicate NothingLost(losses: Losses) {
    forall m: nat :: losses(m) == 0
  }

  /** How many blocks come of a window when `k` replies are lost, `rest` are missing and the interval is `n`. */
  function Stride(n: nat, k: nat, rest: nat): (h: nat)
    requires rest > 0
    ensures h > 0
  {
    if k > 0 then HalvedBy(n, k) else if 0 < n < rest then n else rest
  }

  /**
   * The events of a download, with `left` left over in the channel: in each window some replies are lost and the next
   * one is delivered, unless it is already there.
   */
  ghost function Script(chain: Chain, v: nat, next: nat, end: nat, n: nat, max: nat, left: seq<Response>,
                        losses: Losses): seq<Event>
    requires next <= end
    decreases end - next, 1
  {
    var k := losses(next);
    var h := Stride(n, k, end - next + 1);
    var j := FirstSpan(left, next, h);
    OneWindow(chain, v, next, h, k, j, j < |left|) + After(chain, v, next, end, h, k, j, max, left, losses)
  }

  /** The block that is next when the download has ended. */
  ghost function Reach(next: nat, end: nat, n: nat, max: nat, losses: Losses): nat
    requires next <= end
    decreases end - next
  {
    var h := Stride(n, losses(next), end - next + 1);
    if next + h > end then next + h else Reach(next + h, end, max, max, losses)
  }

  lemma ReachIs(next: nat, end: nat, n: nat, max: nat, losses: Losses)
    requires next <= end
    ensures
      var h := Stride(n, losses(next), end - next + 1);
      Reach(next, end, n, max, losses) == if next + h > end then next + h else Reach(next + h, end, max, max, losses)
  {
  }

  /** When no reply is lost the download ends at its end. */
  lemma {:induction false} PromptReach(next: nat, end: nat, n: nat, max: nat, losses: Losses)
    requires next <= end && NothingLost(losses)
    ensures Reach(next, end, n, max, losses) == end + 1
    decreases end - next
  {
    var h := Stride(n, losses(next), end - next + 1);
    if next + h <= end {
      PromptReach(next + h, end, max, max, losses);
    }
  }

  /** `k` timeouts, `j` replies to no avail, and then the window, which is already there or has to be delivered. */
  ghost function OneWindow(chain: Chain, v: nat, next: nat, h: nat, k: nat, j: nat, there: bool): seq<Event> {
    seq(k, _ => Timeout) + seq(j, _ => Wake) +
    if there then [Wake] else [Deliver(Response(Later(v, k + j), Some(Run(chain, next, h)))), Wake]
  }

  lemma WindowAt(chain: Chain, v: nat, next: nat, h: nat, k: nat, j: nat, there: bool, i: nat)
    ensures
      var w := OneWindow(chain, v, next, h, k, j, there);
      && |w| == k + j + (if there then 1 else 2)
      && (i < k ==> w[i] == Timeout) && (k <= i < k + j ==> w[i] == Wake)
      && if there then w[k + j] == Wake
         else w[k + j] == Deliver(Response(Later(v, k + j), Some(Run(chain, next, h)))) && w[k + j + 1] == Wake
  {
    hide Run, Later;
  }

  /** The script after the window. */
  ghost function After(chain: Chain, v: nat, next: nat, end: nat, h: nat, k: nat, j: nat, max: nat,
                       left: seq<Response>, losses: Losses): seq<Event>
    requires next <= end && h > 0
    decreases end - next, 0
  {
    if next + h > end then []
    else Script(chain, Later(v, k + j + 1), next + h, end, max, max, if j < |left| then left[j + 1..] else [], losses)
  }

  lemma ScriptIs(chain: Chain, v: nat, next: nat, end: nat, n: nat, max: nat, left: seq<Response>, losses: Losses)
    requires next <= end
    ensures
      var k := losses(next);
      var h := Stride(n, k, end - next + 1);
      var j := FirstSpan(left, next, h);
      Script(chain, v, next, end, n, max, left, losses) ==
        OneWindow(chain, v, next, h, k, j, j < |left|) + After(chain, v, next, end, h, k, j, max, left, losses)
  {
    hide OneWindow, Later, Run, FirstSpan, Stride;
  }

  /** A download of which nothing is lost and nothing left over: each window is delivered and then read. */
  lemma PromptScript(chain: Chain, v: nat, next: nat, end: nat, n: nat, max: nat, losses: Losses)
    requires next <= end && NothingLost(losses) && v < TWO_64
    ensures
      var h := Stride(n, 0, end - next + 1);
      Script(chain, v, next, end, n, max, [], losses) ==
        [Deliver(Response(v, Some(Run(chain, next, h)))), Wake] +
        if next + h > end then [] else Script(chain, Later(v, 1), next + h, end, max, max, [], losses)
  {
    hide Run, Script;
    ScriptIs(chain, v, next, end, n, max, [], losses);
    LaterStep(v, 0);
  }

  lemma WindowHappens(c: Course, rest: seq<Event>)
    requires c.lost <= 4 && c.window > 0 && c.v < TWO_64 && NoRefusals(c.left) && c.start <= |c.events|
    requires c.events[c.start..] == c.Window() + rest
    ensures c.Happens() && NoRefusals(c.Rest()) && c.events[c.start + c.Length()..] == rest
  {
    hide OneWindow, Course.Size;
    WindowAt(c.chain, c.v, c.begin, c.Size(), c.lost, c.Skipped(), c.Skipped() < |c.left|, 0);
    Placed(c.events, c.start, c.Window(), rest);
  }

  lemma Placed(events: seq<Event>, start: nat, w: seq<Event>, rest: seq<Event>)
    requires start <= |events| && events[start..] == w + rest
    ensures start + |w| <= |events| && events[start..start + |w|] == w && events[start + |w|..] == rest
  {
    var s := events[start..];
    assert s[..|w|] == events[start..start + |w|];
    assert s[|w|..] == events[start + |w|..];
  }

  /** What the script starts with, and what is left of it after the window. */
  lemma ScriptStarts(chain: Chain, events: seq<Event>, i: nat, v: nat, next: nat, end: nat, n: nat, max: nat,
                     left: seq<Response>, losses: Losses)
    requires next <= end && i <= |events| && events[i..] == Script(chain, v, next, end, n, max, left, losses)
    requires n > 0 && v < TWO_64 && NoRefusals(left)
    ensures
      var window := if n < end - next + 1 then n else end - next + 1;
      var c := Course(chain, events, i, v, n, losses(next), left, next, window);
      && c.Size() == Stride(n, losses(next), end - next + 1) && c.Happens() && NoRefusals(c.Rest())
      && (c.Size() < end - next + 1 ==>
           i + c.Length() <= |events| &&
           events[i + c.Length()..] ==
             Script(chain, Later(v, c.lost + c.Skipped() + 1), next + c.Size(), end, max, max, c.Rest(), losses))
  {
    hide *;
    var window := if n < end - next + 1 then n else end - next + 1;
    var c := Course(chain, events, i, v, n, losses(next), left, next, window);
    ScriptIs(chain, v, next, end, n, max, left, losses);
    CourseParts(c, end - next + 1);
    WindowHappens(c, After(chain, v, next, end, c.Size(), c.lost, c.Skipped(), max, left, losses));
    AfterIs(c, end, max, losses);
  }

  lemma CourseEnds(c: Course, r: Outcome, i: nat, channel: seq<Response>, version: nat)
    requires c.Finished(r, i, channel, version)
    ensures r.Got? && |r.blocks| == c.Size() && i == c.start + c.Length()
    ensures channel == c.Rest() && version == Later(c.v, c.lost + c.Skipped() + 1)
  {
  }

  lemma CourseParts(c: Course, rest: nat)
    requires c.n > 0 && rest > 0 && c.window == if c.n < rest then c.n else rest
    ensures c.Size() == Stride(c.n, c.lost, rest) && c.Skipped() == FirstSpan(c.left, c.begin, c.Size())
    ensures c.Window() == OneWindow(c.chain, c.v, c.begin, c.Size(), c.lost, c.Skipped(), c.Skipped() < |c.left|)
  {
  }

  lemma AfterIs(c: Course, end: nat, max: nat, losses: Losses)
    requires c.begin <= end && c.Size() > 0
    ensures c.Happens() ==> c.start + c.Length() <= |c.events|
    ensures c.begin + c.Size() <= end ==>
      After(c.chain, c.v, c.begin, end, c.Size(), c.lost, c.Skipped(), max, c.left, losses) ==
        Script(c.chain, Later(c.v, c.lost + c.Skipped() + 1), c.begin + c.Size(), end, max, max, c.Rest(), losses)
  {
    hide Script, Later, HalvedBy;
  }

  lemma ScriptIsHonest(chain: Chain, v: nat, next: nat, end: nat, n: nat, max: nat, left: seq<Response>, losses: Losses)
    requires next <= end
    ensures AllHonest(chain, Script(chain, v, next, end, n, max, left, losses))
    decreases end - next
  {
    hide *;
    var k := losses(next);
    var h := Stride(n, k, end - next + 1);
    var j := FirstSpan(left, next, h);
    ScriptIs(chain, v, next, end, n, max, left, losses);
    WindowIsHonest(chain, v, next, h, k, j, j < |left|);
    var left' := if j < |left| then left[j + 1..] else [];
    if next + h <= end {
      ScriptIsHonest(chain, Later(v, k + j + 1), next + h, end, max, max, left', losses);
    }
    AfterUnfolds(chain, v, next, end, h, k, j, max, left, losses);
    HonestJoin(chain, OneWindow(chain, v, next, h, k, j, j < |left|),
               After(chain, v, next, end, h, k, j, max, left, losses));
  }

  lemma HonestJoin(chain: Chain, a: seq<Event>, b: seq<Event>)
    ensures AllHonest(chain, a) && (b == [] || AllHonest(chain, b)) ==> AllHonest(chain, a + b)
  {
  }

  lemma AfterUnfolds(chain: Chain, v: nat, next: nat, end: nat, h: nat, k: nat, j: nat, max: nat, left: seq<Response>,
                     losses: Losses)
    requires next <= end && h > 0
    ensures After(chain, v, next, end, h, k, j, max, left, losses) ==
      if next + h > end then []
      else Script(chain, Later(v, k + j + 1), next + h, end, max, max, if j < |left| then left[j + 1..] else [], losses)
  {
  }

  lemma WindowIsHonest(chain: Chain, v: nat, next: nat, h: nat, k: nat, j: nat, there: bool)
    requires h > 0
    ensures AllHonest(chain, OneWindow(chain, v, next, h, k, j, there))
  {
  }

  /** A fresh handler whose requests are all answered at once hands on exactly the blocks asked for. */
  method PromptDownload(max: nat, begin: nat, end: nat, peer: nat, ghost chain: Chain, events: seq<Event>,
                        ghost losses: Losses)
    returns (handler: SyncChain, r: Outcome)
    requires max > 0 && begin <= end < TWO_64 && Numbered(chain) && NothingLost(losses)
    requires events == Script(chain, 0, begin, end, max, max, [], losses)
    ensures r.Got? && handler.notified == Run(chain, begin, end - begin + 1)
  {
    ScriptIsHonest(chain, 0, begin, end, max, max, [], losses);
    handler := new SyncChain(max, chain);
    ghost var n;
    r, n := handler.SyncBlock(begin, end, peer, events, chain, losses);
  }

  // ---------- Beyond the end ----------

  /** How many replies must be lost for a window that is not just the rest. */
  function Timeouts(n: nat, rest: nat): (k: Loss)
    ensures k > 0
  {
    if Half(n) != rest then 1 else 3
  }

  /** In each window replies are lost until the last one is too long. */
  function Overshooting(begin: nat, end: nat, first: nat, max: nat): Losses {
    (next: nat) => if next > end then 0 else Timeouts(if next == begin then first else max, end - next + 1)
  }

  /** The window is never just the rest. */
  lemma WindowMisses(n: nat, next: nat, end: nat, max: nat)
    requires next <= end && !Bounded(max, n, next, end)
    ensures HalvedBy(n, Timeouts(n, end - next + 1)) != end - next + 1
  {
  }

  /** Such losses take the download beyond its end. */
  lemma {:induction false} ReachBeyond(begin: nat, next: nat, end: nat, n: nat, first: nat, max: nat)
    requires begin <= next <= end && n == (if next == begin then first else max) && !Bounded(max, n, next, end)
    ensures Reach(next, end, n, max, Overshooting(begin, end, first, max)) > end + 1
    decreases end - next
  {
    hide HalvedBy, Timeouts, Bounded;
    var losses := Overshooting(begin, end, first, max);
    WindowMisses(n, next, end, max);
    var h := Stride(n, losses(next), end - next + 1);
    if next + h <= end {
      StillUnbounded(max, n, next, end, next + h);
      ReachBeyond(begin, next + h, end, max, first, max);
    }
  }

  lemma StillUnbounded(max: nat, n: nat, next: nat, end: nat, next': nat)
    requires !Bounded(max, n, next, end)
    ensures !Bounded(max, max, next', end)
  {
  }

  /** Every download of a fresh handler with windows of four or more can be driven beyond its end. */
  method GoBeyond(max: nat, begin: nat, end: nat, peer: nat, ghost chain: Chain, events: seq<Event>)
    returns (handler: SyncChain, r: Outcome, ghost n: nat)
    requires max >= 4 && begin <= end < TWO_64 && Numbered(chain)
    requires events == Script(chain, 0, begin, end, max, max, [], Overshooting(begin, end, max, max))
    ensures r.Got? && begin + n > end + 1 && handler.notified == Run(chain, begin, n)
  {
    ghost var losses := Overshooting(begin, end, max, max);
    ScriptIsHonest(chain, 0, begin, end, max, max, [], losses);
    ReachBeyond(begin, begin, end, max, max, max);
    handler := new SyncChain(max, chain);
    r, n := handler.SyncBlock(begin, end, peer, events, chain, losses);
  }
}
