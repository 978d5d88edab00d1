// The live tail: a reader that polls a growing event log and emits the public frames above its
// cursor, next to a writer that appends, completes, hides or removes the game at any moment.
module LiveTail {
  import opened Options
  import opened Utils
  import opened Spectator

  type Log = seq<Event>

  // One committed state of the game: found and broadcastable, finished, and the events so far.
  datatype Game = Game(exists_: bool, terminal: bool, log: Log)

  // Every committed state, in commit order.  The two statements of a poll each read some moment.
  type History = nat -> Game

  predicate Sorted(log: Log) {
    forall i, j :: 0 <= i < j < |log| ==> log[i].sequence < log[j].sequence
  }

  // The writer only appends, with rising sequence numbers, and stops once the game is finished.
  ghost predicate ValidHistory(h: History) {
    && (forall n :: Sorted(h(n).log))
    && (forall m, n :: m <= n ==> h(m).log <= h(n).log)
    && (forall m, n :: m <= n && h(m).terminal ==> h(n).log == h(m).log)
  }

  // Moments at which the tail's statements read, never going back in time.
  type Schedule = nat -> nat

  ghost predicate Forward(at: Schedule) {
    forall i, j :: i <= j ==> at(i) <= at(j)
  }

  datatype Config = Config(heartbeatMs: int, idleTimeoutMs: int)

  datatype Block = Frame(frame: PublicFrame) | Heartbeat

  datatype Close = Open | Vanished | Terminated | Drained | IdleTimeout

  // ------------------------------------------------ slices of the log

  function Between(log: Log, a: int, b: int): Log
    decreases |log|
  {
    if log == [] then []
    else (if a < log[0].sequence <= b then [log[0]] else []) + Between(log[1..], a, b)
  }

  function Above(log: Log, a: int): Log
    decreases |log|
  {
    if log == [] then []
    else (if a < log[0].sequence then [log[0]] else []) + Above(log[1..], a)
  }

  function Publics(log: Log, a: int, b: int): seq<PublicFrame> {
    ToPublicEvents(Between(log, a, b))
  }

  function AllPublics(log: Log, a: int): seq<PublicFrame> {
    ToPublicEvents(Above(log, a))
  }

  lemma {:induction false} BetweenEmpty(log: Log, a: int, b: int)
    requires b <= a || forall i :: 0 <= i < |log| ==> b < log[i].sequence
    ensures Between(log, a, b) == []
    decreases |log|
  {
    if log != [] { BetweenEmpty(log[1..], a, b); }
  }

  lemma SortedTail(log: Log)
    requires Sorted(log) && log != []
    ensures Sorted(log[1..])
    ensures forall i :: 0 <= i < |log[1..]| ==> log[0].sequence < log[1..][i].sequence
  {
  }

  lemma SeqAssoc(x: Log, y: Log, z: Log)
    ensures x + (y + z) == x + y + z && [] + z == z && x + [] == x
  {
  }

  lemma {:induction false} BetweenSplits(log: Log, a: int, b: int, c: int)
    requires Sorted(log) && a <= b <= c
    ensures Between(log, a, c) == Between(log, a, b) + Between(log, b, c)
    decreases |log|
  {
    hide Sorted;
    if log != [] {
      var rest := log[1..];
      SortedTail(log);
      BetweenSplits(rest, a, b, c);
      var head := if a < log[0].sequence <= b then [log[0]] else [];
      SeqAssoc(head, Between(rest, a, b), Between(rest, b, c));
      if b < log[0].sequence { BetweenEmpty(rest, a, b); }
    }
  }

  lemma {:induction false} AboveSplits(log: Log, a: int, b: int)
    requires Sorted(log) && a <= b
    ensures Above(log, a) == Between(log, a, b) + Above(log, b)
    decreases |log|
  {
    hide Sorted;
    if log != [] {
      var rest := log[1..];
      SortedTail(log);
      AboveSplits(rest, a, b);
      var head := if a < log[0].sequence <= b then [log[0]] else [];
      SeqAssoc(head, Between(rest, a, b), Above(rest, b));
      if b < log[0].sequence { BetweenEmpty(rest, a, b); }
    }
  }

  // The head of what is above the cursor is exactly what the next cursor position adds.
  lemma {:induction false} AboveHead(log: Log, c: int)
    requires Sorted(log) && Above(log, c) != []
    ensures var e := Above(log, c)[0];
            c < e.sequence && Between(log, c, e.sequence) == [e] && Above(log, e.sequence) == Above(log, c)[1..]
    decreases |log|
  {
    if c < log[0].sequence {
      BetweenEmpty(log[1..], c, log[0].sequence);
      AboveKeepsAll(log[1..], c);
      AboveKeepsAll(log[1..], log[0].sequence);
    } else {
      AboveHead(log[1..], c);
      assert Above(log, c) == Above(log[1..], c);
      var e := Above(log[1..], c)[0];
      assert log[0].sequence <= c < e.sequence;
    }
  }

  lemma {:induction false} AboveKeepsAll(log: Log, c: int)
    requires forall i :: 0 <= i < |log| ==> c < log[i].sequence
    ensures Above(log, c) == log
    decreases |log|
  {
    if log != [] { AboveKeepsAll(log[1..], c); }
  }

  // What lies at or below a cursor that has been reached does not change as the log grows.
  lemma {:induction false} BetweenGrows(log: Log, more: Log, a: int, b: int)
    requires Sorted(log + more)
    requires log == [] ==> b <= a
    requires log != [] ==> b <= log[|log| - 1].sequence || b <= a
    ensures Between(log + more, a, b) == Between(log, a, b)
    decreases |log|
  {
    if b <= a {
      BetweenEmpty(log + more, a, b);
      BetweenEmpty(log, a, b);
    } else {
      assert (log + more)[0] == log[0] && (log + more)[1..] == log[1..] + more;
      if |log| == 1 {
        forall i | 0 <= i < |more| ensures b < more[i].sequence { assert (log + more)[i + 1] == more[i]; }
        BetweenEmpty(more, a, b);
        assert log[1..] + more == more;
      } else {
        forall i, j | 0 <= i < j < |log[1..] + more|
          ensures (log[1..] + more)[i].sequence < (log[1..] + more)[j].sequence {
          assert (log + more)[i + 1] == (log[1..] + more)[i] && (log + more)[j + 1] == (log[1..] + more)[j];
        }
        BetweenGrows(log[1..], more, a, b);
      }
    }
  }

  predicate Reaches(log: Log, a: int, cursor: int) {
    cursor == a || exists i :: 0 <= i < |log| && log[i].sequence == cursor
  }

  lemma PublicsStable(log: Log, later: Log, a: int, cursor: int)
    requires Sorted(later) && log <= later && Reaches(log, a, cursor)
    ensures Publics(later, a, cursor) == Publics(log, a, cursor) && Reaches(later, a, cursor)
  {
    var more := later[|log|..];
    assert later == log + more;
    ReachedIsOld(log, later, a, cursor);
    hide *;
    BetweenGrows(log, more, a, cursor);
    SlicesGivePublics(log, later, a, cursor);
  }

  lemma SlicesGivePublics(log: Log, later: Log, a: int, b: int)
    requires Between(log, a, b) == Between(later, a, b)
    ensures Publics(log, a, b) == Publics(later, a, b)
  {
  }

  lemma ReachedIsOld(log: Log, later: Log, a: int, cursor: int)
    requires Sorted(later) && log <= later && Reaches(log, a, cursor)
    ensures Reaches(later, a, cursor)
    ensures cursor == a || (log != [] && cursor <= log[|log| - 1].sequence)
  {
    if cursor != a {
      var i :| 0 <= i < |log| && log[i].sequence == cursor;
      assert later[i] == log[i] && later[|log| - 1] == log[|log| - 1];
    }
  }

  // ------------------------------------------------ the stream

  function Frames(blocks: seq<Block>): seq<PublicFrame>
    decreases |blocks|
  {
    if blocks == [] then []
    else (if blocks[0].Frame? then [blocks[0].frame] else []) + Frames(blocks[1..])
  }

  lemma {:induction false} FramesAppend(blocks: seq<Block>, b: Block)
    ensures Frames(blocks + [b]) == Frames(blocks) + (if b.Frame? then [b.frame] else [])
    decreases |blocks|
  {
    if blocks == [] {
      assert blocks + [b] == [b];
      assert [b][1..] == [];
    } else {
      assert (blocks + [b])[0] == blocks[0] && (blocks + [b])[1..] == blocks[1..] + [b];
      FramesAppend(blocks[1..], b);
    }
  }

  predicate IsEnd(f: PublicFrame) { f.event.eventType == "GameTerminated" }

  predicate NoEnd(fs: seq<PublicFrame>) {
    forall i :: 0 <= i < |fs| ==> !IsEnd(fs[i])
  }

  // The frames sent so far are exactly the public events in (start, cursor], in order, once each.
  ghost predicate Exact(h: History, moment: nat, start: int, cursor: int, frames: seq<PublicFrame>) {
    && start <= cursor
    && Reaches(h(moment).log, start, cursor)
    && frames == Publics(h(moment).log, start, cursor)
  }

  lemma ExactLater(h: History, m: nat, n: nat, start: int, cursor: int, frames: seq<PublicFrame>)
    requires ValidHistory(h) && m <= n && Exact(h, m, start, cursor, frames)
    ensures Exact(h, n, start, cursor, frames)
  {
    PublicsStable(h(m).log, h(n).log, start, cursor);
  }

  lemma DrainOne(log: Log, start: int, cursor: int)
    requires Sorted(log) && start <= cursor && Above(log, cursor) != []
    ensures var e := Above(log, cursor)[0];
            && Publics(log, start, e.sequence) == Publics(log, start, cursor) + Kept(ToPublicEvent(e))
            && Above(log, e.sequence) == Above(log, cursor)[1..]
            && cursor < e.sequence && Reaches(log, start, e.sequence)
  {
    var e := Above(log, cursor)[0];
    AboveHead(log, cursor);
    BetweenSplits(log, start, cursor, e.sequence);
    ToPublicEventsConcat(Between(log, start, cursor), [e]);
    ToPublicEventsOne(e);
    AboveFromLog(log, cursor);
  }

  lemma {:induction false} AboveFromLog(log: Log, c: int)
    requires Above(log, c) != []
    ensures exists i :: 0 <= i < |log| && log[i] == Above(log, c)[0]
    decreases |log|
  {
    if c < log[0].sequence {
      assert log[0] == Above(log, c)[0];
    } else {
      AboveFromLog(log[1..], c);
      var i :| 0 <= i < |log[1..]| && log[1..][i] == Above(log[1..], c)[0];
      assert log[i + 1] == Above(log, c)[0];
    }
  }

  // All the frames there were to send when poll k - 1 read the log.
  function SentBefore(h: History, at: Schedule, start: int, k: nat): seq<PublicFrame> {
    if k == 0 then [] else AllPublics(h(at(2 * k - 1)).log, start)
  }

  // The clock reading of the last emission before poll k: the start, or the first reading of the
  // last poll that found something new to send.
  function EmitReading(h: History, at: Schedule, start: int, k: nat): nat {
    if k == 0 then 0
    else if SentBefore(h, at, start, k) != SentBefore(h, at, start, k - 1) then 3 * (k - 1) + 1
    else EmitReading(h, at, start, k - 1)
  }

  // At the end of poll k the idle timeout has passed since the last emission.
  predicate IdleDue(h: History, at: Schedule, start: int, cfg: Config, clock: nat -> int, k: nat) {
    cfg.idleTimeoutMs > 0 && clock(3 * k + 2) - clock(EmitReading(h, at, start, k + 1)) >= cfg.idleTimeoutMs
  }

  // Nothing poll k reads gives a reason to close.
  predicate StaysOpen(h: History, at: Schedule, start: int, cfg: Config, clock: nat -> int, k: nat) {
    && h(at(2 * k)).exists_ && !h(at(2 * k)).terminal
    && NoEnd(SentBefore(h, at, start, k + 1)) && !IdleDue(h, at, start, cfg, clock, k)
  }

  ghost predicate OpenUntil(h: History, at: Schedule, start: int, cfg: Config, clock: nat -> int, k: nat) {
    forall j: nat :: j < k ==> StaysOpen(h, at, start, cfg, clock, j)
  }

  // These frames end with the first terminal frame of all there is to send.
  predicate CutAtEnd(frames: seq<PublicFrame>, all: seq<PublicFrame>) {
    frames <= all && frames != [] && IsEnd(frames[|frames| - 1]) && NoEnd(frames[..|frames| - 1])
  }

  // The run ends with poll k, the first with a reason to close, or after all its polls; and it has
  // sent everything its polls have read.
  ghost predicate ClosedAt(h: History, at: Schedule, start: int, cfg: Config, clock: nat -> int, polls: nat, k: nat,
                           close: Close, frames: seq<PublicFrame>) {
    var game := h(at(2 * k));
    && OpenUntil(h, at, start, cfg, clock, k)
    && (close == Open <==> k == polls) && k <= polls
    && match close
       case Open => frames == SentBefore(h, at, start, k)
       case Vanished => !game.exists_ && frames == SentBefore(h, at, start, k)
       case Terminated => game.exists_ && CutAtEnd(frames, SentBefore(h, at, start, k + 1))
       case Drained =>
         game.exists_ && game.terminal && NoEnd(frames) && frames == SentBefore(h, at, start, k + 1)
       case IdleTimeout =>
         && game.exists_ && !game.terminal && NoEnd(frames) && frames == SentBefore(h, at, start, k + 1)
         && IdleDue(h, at, start, cfg, clock, k)
  }

  // So the schedule, the clock and the history determine how a run ends and what it has sent.
  lemma RunIsDetermined(h: History, at: Schedule, start: int, cfg: Config, clock: nat -> int, polls: nat,
                        k1: nat, close1: Close, frames1: seq<PublicFrame>,
                        k2: nat, close2: Close, frames2: seq<PublicFrame>)
    requires ClosedAt(h, at, start, cfg, clock, polls, k1, close1, frames1)
    requires ClosedAt(h, at, start, cfg, clock, polls, k2, close2, frames2)
    ensures k1 == k2 && close1 == close2 && frames1 == frames2
  {
    hide SentBefore, IdleDue, IsEnd;
    ClosesNoLater(h, at, start, cfg, clock, polls, k1, close1, frames1, k2);
    ClosesNoLater(h, at, start, cfg, clock, polls, k2, close2, frames2, k1);
    if close1 == Terminated { CutNotClean(frames1, SentBefore(h, at, start, k1 + 1)); }
    if close2 == Terminated { CutNotClean(frames2, SentBefore(h, at, start, k2 + 1)); }
    if close1 == Terminated && close2 == Terminated { SameCut(frames1, frames2, SentBefore(h, at, start, k1 + 1)); }
  }

  // A run that closes at poll k cannot stay open past it.
  lemma ClosesNoLater(h: History, at: Schedule, start: int, cfg: Config, clock: nat -> int, polls: nat,
                      k: nat, close: Close, frames: seq<PublicFrame>, later: nat)
    requires ClosedAt(h, at, start, cfg, clock, polls, k, close, frames)
    requires OpenUntil(h, at, start, cfg, clock, later) && later <= polls
    ensures later <= k
  {
    hide SentBefore, IdleDue, IsEnd, NoEnd, CutAtEnd;
    if close == Terminated { CutNotClean(frames, SentBefore(h, at, start, k + 1)); }
    assert k < later ==> StaysOpen(h, at, start, cfg, clock, k);
  }

  lemma CutNotClean(frames: seq<PublicFrame>, all: seq<PublicFrame>)
    requires CutAtEnd(frames, all)
    ensures !NoEnd(all)
  {
    assert all[|frames| - 1] == frames[|frames| - 1];
  }

  lemma SameCut(f: seq<PublicFrame>, g: seq<PublicFrame>, all: seq<PublicFrame>)
    requires CutAtEnd(f, all) && CutAtEnd(g, all)
    ensures f == g
  {
    hide IsEnd;
    CutHere(f, all);
    CutHere(g, all);
  }

  lemma CutHere(f: seq<PublicFrame>, all: seq<PublicFrame>)
    requires CutAtEnd(f, all)
    ensures IsEnd(all[|f| - 1]) && forall i :: 0 <= i < |f| - 1 ==> !IsEnd(all[i])
  {
    hide IsEnd;
    forall i | 0 <= i < |f| - 1 ensures !IsEnd(all[i]) { assert f[..|f| - 1][i] == all[i]; }
  }

  // What a run of the tail has sent once it is over: nothing changes it any more.
  ghost predicate Tailed(h: History, moment: nat, start: int, cursor: int, frames: seq<PublicFrame>, close: Close) {
    forall n :: moment <= n ==>
      && Exact(h, n, start, cursor, frames)
      && (close == Drained ==> frames == AllPublics(h(n).log, start))
  }

  // The inner loop: project and emit every event above the cursor, hidden ones moving the cursor
  // only, up to and including the terminal frame.
  method DrainWindow(h: History, moment: nat, ghost start: int, sent: seq<Block>, from: int)
    returns (blocks: seq<Block>, cursor: int, emittedAny: bool, ended: bool)
    requires ValidHistory(h) && Exact(h, moment, start, from, Frames(sent)) && NoEnd(Frames(sent))
    ensures Exact(h, moment, start, cursor, Frames(blocks))
    ensures Frames(sent) <= Frames(blocks) && (emittedAny <==> Frames(blocks) != Frames(sent))
    ensures !ended ==> Frames(blocks) == AllPublics(h(moment).log, start) && NoEnd(Frames(blocks))
    ensures !ended ==> Above(h(moment).log, cursor) == []
    ensures ended ==> CutAtEnd(Frames(blocks), AllPublics(h(moment).log, start))
  {
    hide ValidHistory, Exact, Sorted, Publics, AllPublics, ToPublicEvent, Above, Frames;
    blocks, cursor, emittedAny, ended := sent, from, false, false;
    var log := h(moment).log;
    var window := Above(log, cursor);
    var i := 0;
    while i < |window|
      invariant 0 <= i <= |window| && window[i..] == Above(log, cursor)
      invariant Exact(h, moment, start, cursor, Frames(blocks)) && NoEnd(Frames(blocks)) && !ended
      invariant Frames(sent) <= Frames(blocks) && (emittedAny <==> Frames(blocks) != Frames(sent))
    {
      var raw := window[i];
      assert window[i..][0] == raw && window[i..][1..] == window[i + 1..];
      ExactStep(h, moment, start, cursor, Frames(blocks));
      assert Frames(blocks) + [] == Frames(blocks);
      var projected := ToPublicEvent(raw);
      cursor := if cursor >= raw.sequence then cursor else raw.sequence;
      if projected.Some? {
        FramesAppend(blocks, Frame(projected.value));
        ghost var before := Frames(blocks);
        blocks := blocks + [Frame(projected.value)];
        emittedAny := true;
        if IsEnd(projected.value) {
          assert Frames(blocks)[..|before|] == before;
          ExactIsPrefix(h, moment, start, cursor, Frames(blocks));
          ended := true;
          return;
        }
      }
      i := i + 1;
    }
    ExactDrained(h, moment, start, cursor, Frames(blocks));
  }

  // The next event above the cursor: a frame more if it is public, and the cursor at it.
  lemma ExactStep(h: History, moment: nat, start: int, cursor: int, frames: seq<PublicFrame>)
    requires ValidHistory(h) && Exact(h, moment, start, cursor, frames) && Above(h(moment).log, cursor) != []
    ensures var e := Above(h(moment).log, cursor)[0];
            && cursor < e.sequence && Above(h(moment).log, e.sequence) == Above(h(moment).log, cursor)[1..]
            && Exact(h, moment, start, e.sequence, frames + Kept(ToPublicEvent(e)))
  {
    hide Publics, ToPublicEvent, Above, Sorted, Reaches;
    DrainOne(h(moment).log, start, cursor);
  }

  lemma ExactDrained(h: History, moment: nat, start: int, cursor: int, frames: seq<PublicFrame>)
    requires ValidHistory(h) && Exact(h, moment, start, cursor, frames) && Above(h(moment).log, cursor) == []
    ensures start <= cursor && frames == AllPublics(h(moment).log, start)
  {
    hide Publics, AllPublics, Above, Sorted, Reaches;
    DrainedAll(h(moment).log, start, cursor);
  }

  lemma ExactIsPrefix(h: History, moment: nat, start: int, cursor: int, frames: seq<PublicFrame>)
    requires ValidHistory(h) && Exact(h, moment, start, cursor, frames)
    ensures frames <= AllPublics(h(moment).log, start)
  {
    hide Publics, AllPublics, Sorted, Reaches;
    SentIsPrefix(h(moment).log, start, cursor);
  }

  lemma ExactStart(h: History, moment: nat, start: int)
    ensures Exact(h, moment, start, start, [])
  {
    StartsEmpty(h(moment).log, start);
  }

  // Nothing above the cursor: everything there is to send lies below it.
  lemma DrainedAll(log: Log, start: int, cursor: int)
    requires Sorted(log) && start <= cursor && Above(log, cursor) == []
    ensures Publics(log, start, cursor) == AllPublics(log, start)
  {
    hide ToPublicEvents, Above, Between;
    AboveSplits(log, start, cursor);
    assert Between(log, start, cursor) + [] == Between(log, start, cursor);
  }

  lemma NothingSentYet(h: History, at: Schedule, start: int, cfg: Config, clock: nat -> int)
    ensures SentBefore(h, at, start, 0) == [] && EmitReading(h, at, start, 0) == 0
    ensures OpenUntil(h, at, start, cfg, clock, 0)
  {
  }

  lemma SentNow(h: History, at: Schedule, start: int, k: nat)
    ensures SentBefore(h, at, start, k + 1) == AllPublics(h(at(2 * k + 1)).log, start)
    ensures EmitReading(h, at, start, k + 1)
            == if SentBefore(h, at, start, k + 1) != SentBefore(h, at, start, k) then 3 * k + 1
               else EmitReading(h, at, start, k)
  {
    hide AllPublics;
    assert 2 * (k + 1) - 1 == 2 * k + 1;
  }

  lemma OpenOneMore(h: History, at: Schedule, start: int, cfg: Config, clock: nat -> int, k: nat)
    requires OpenUntil(h, at, start, cfg, clock, k) && StaysOpen(h, at, start, cfg, clock, k)
    ensures OpenUntil(h, at, start, cfg, clock, k + 1)
  {
    hide StaysOpen;
  }

  // What a run from `start` leaves behind: its frames stay what it has to send, and it closed at the
  // first poll with a reason to.
  ghost predicate Ran(h: History, at: Schedule, start: int, cfg: Config, clock: nat -> int, polls: nat,
                      cursor: int, close: Close, frames: seq<PublicFrame>) {
    && Tailed(h, at(2 * polls), start, cursor, frames, close)
    && exists k :: ClosedAt(h, at, start, cfg, clock, polls, k, close, frames)
  }

  // stream_live_tail for up to `polls` polls; `clock(0)` is read at the start and three readings
  // belong to each poll.  Poll k reads the game row at moment at(2k) and the log at at(2k + 1).
  method StreamLiveTail(h: History, at: Schedule, after: Option<int>, cfg: Config, clock: nat -> int, polls: nat)
    returns (blocks: seq<Block>, cursor: int, close: Close)
    requires ValidHistory(h) && Forward(at)
    ensures after == None ==> Ran(h, at, 0, cfg, clock, polls, cursor, close, Frames(blocks))
    ensures after.Some? ==> Ran(h, at, after.value, cfg, clock, polls, cursor, close, Frames(blocks))
  {
    hide ValidHistory, Exact, Tailed, Sorted, Forward, AllPublics, SentBefore, EmitReading, OpenUntil, Above, Frames,
         IsEnd, NoEnd;
    NoBlocks();
    cursor := if after.Some? then after.value else 0;
    ghost var start := cursor;
    NothingSentYet(h, at, start, cfg, clock);
    ghost var moment: nat := at(0);
    var lastEmit, lastHeartbeat := clock(0), clock(0);
    blocks, close := [], Open;
    ExactStart(h, moment, start);
    var k := 0;
    while k < polls
      invariant 0 <= k <= polls && moment <= at(2 * k)
      invariant Exact(h, moment, start, cursor, Frames(blocks))
      invariant NoEnd(Frames(blocks)) && close == Open
      invariant Frames(blocks) == SentBefore(h, at, start, k) && OpenUntil(h, at, start, cfg, clock, k)
      invariant lastEmit == clock(EmitReading(h, at, start, k))
    {
      InOrder(at, k, polls);
      SentNow(h, at, start, k);
      var game := h(at(2 * k));
      if !game.exists_ {
        TailedNow(h, moment, at(2 * polls), start, cursor, Frames(blocks), Vanished);
        assert ClosedAt(h, at, start, cfg, clock, polls, k, Vanished, Frames(blocks));
        return blocks, cursor, Vanished;
      }
      ExactLater(h, moment, at(2 * k + 1), start, cursor, Frames(blocks));
      moment := at(2 * k + 1);
      var emittedAny, ended;
      blocks, cursor, emittedAny, ended := DrainWindow(h, at(2 * k + 1), start, blocks, cursor);
      if ended {
        TailedNow(h, moment, at(2 * polls), start, cursor, Frames(blocks), Terminated);
        assert ClosedAt(h, at, start, cfg, clock, polls, k, Terminated, Frames(blocks));
        return blocks, cursor, Terminated;
      }
      if emittedAny {
        lastEmit, lastHeartbeat := clock(3 * k + 1), clock(3 * k + 1);
      }
      if game.terminal {
        TailedDrained(h, at(2 * k), moment, at(2 * polls), start, cursor, Frames(blocks));
        assert ClosedAt(h, at, start, cfg, clock, polls, k, Drained, Frames(blocks));
        return blocks, cursor, Drained;
      }
      var now := clock(3 * k + 2);
      if cfg.idleTimeoutMs > 0 && now - lastEmit >= cfg.idleTimeoutMs {
        TailedNow(h, moment, at(2 * polls), start, cursor, Frames(blocks), IdleTimeout);
        assert ClosedAt(h, at, start, cfg, clock, polls, k, IdleTimeout, Frames(blocks));
        return blocks, cursor, IdleTimeout;
      }
      OpenOneMore(h, at, start, cfg, clock, k);
      if cfg.heartbeatMs > 0 && now - lastHeartbeat >= cfg.heartbeatMs {
        FramesAppend(blocks, Heartbeat);
        assert Frames(blocks) + [] == Frames(blocks);
        blocks := blocks + [Heartbeat];
        lastHeartbeat := clock(3 * k + 3);
      }
      k := k + 1;
    }
    TailedNow(h, moment, at(2 * polls), start, cursor, Frames(blocks), Open);
    assert ClosedAt(h, at, start, cfg, clock, polls, k, Open, Frames(blocks));
  }

  lemma StartsEmpty(log: Log, start: int)
    ensures Publics(log, start, start) == []
  {
    BetweenEmpty(log, start, start);
  }

  lemma InOrder(at: Schedule, k: nat, polls: nat)
    requires Forward(at) && k < polls
    ensures at(2 * k) <= at(2 * k + 1) <= at(2 * (k + 1)) <= at(2 * polls)
  {
  }

  lemma NoBlocks()
    ensures Frames([]) == [] && NoEnd([])
  {
  }

  lemma TailedNow(h: History, m: nat, m': nat, start: int, cursor: int, frames: seq<PublicFrame>, close: Close)
    requires ValidHistory(h) && m <= m' && Exact(h, m, start, cursor, frames) && close != Drained
    ensures Tailed(h, m', start, cursor, frames, close)
  {
    hide Exact;
    forall n | m' <= n ensures Exact(h, n, start, cursor, frames) { ExactLater(h, m, n, start, cursor, frames); }
  }

  lemma TailedDrained(h: History, read: nat, m: nat, m': nat, start: int, cursor: int, frames: seq<PublicFrame>)
    requires ValidHistory(h) && read <= m <= m' && h(read).terminal
    requires Exact(h, m, start, cursor, frames) && Above(h(m).log, cursor) == []
    ensures Tailed(h, m', start, cursor, frames, Drained)
  {
    assert start <= cursor;
    hide Sorted, Publics, AllPublics, Above, Reaches;
    NothingAboveIsAll(h, read, m, start, cursor);
    forall n | m' <= n ensures Exact(h, n, start, cursor, frames) { ExactLater(h, m, n, start, cursor, frames); }
  }

  // A terminal status read before the events means the window just drained was the last one.
  lemma NothingAboveIsAll(h: History, m: nat, n: nat, start: int, cursor: int)
    requires ValidHistory(h) && m <= n && h(m).terminal && start <= cursor && Above(h(n).log, cursor) == []
    ensures forall n' :: n <= n' ==> Publics(h(n').log, start, cursor) == AllPublics(h(n').log, start)
  {
    forall n' | n <= n' ensures Publics(h(n').log, start, cursor) == AllPublics(h(n').log, start) {
      assert h(n').log == h(m).log == h(n).log;
      DrainedAll(h(n').log, start, cursor);
    }
  }

  // ------------------------------------------------ prefixes and reconnects

  // At every cursor position, what has been sent is a prefix of everything there is to send.
  lemma SentIsPrefix(log: Log, start: int, cursor: int)
    requires Sorted(log) && start <= cursor
    ensures Publics(log, start, cursor) <= AllPublics(log, start)
  {
    AboveSplits(log, start, cursor);
    ToPublicEventsConcat(Between(log, start, cursor), Above(log, cursor));
  }

  // The id a client would send on reconnect: that of the last frame, or where it started.
  function LastId(start: int, frames: seq<PublicFrame>): int {
    if frames == [] then start else frames[|frames| - 1].event.sequence
  }

  lemma NoFrames(log: Log, a: int, b: int)
    requires log == []
    ensures Publics(log, a, b) == []
  {
  }

  lemma FrameSequence(e: Event)
    ensures ToPublicEvent(e).Some? ==> ToPublicEvent(e).value.event.sequence == e.sequence
  {
  }

  lemma {:induction false} BetweenSnoc(log: Log, e: Event, a: int, b: int)
    ensures Between(log + [e], a, b) == Between(log, a, b) + (if a < e.sequence <= b then [e] else [])
    decreases |log|
  {
    if log == [] {
      assert log + [e] == [e];
      assert [e][1..] == [];
    } else {
      assert (log + [e])[0] == log[0] && (log + [e])[1..] == log[1..] + [e];
      BetweenSnoc(log[1..], e, a, b);
    }
  }

  lemma PublicsSnoc(log: Log, e: Event, a: int, b: int)
    ensures Publics(log + [e], a, b)
            == Publics(log, a, b) + (if a < e.sequence <= b then Kept(ToPublicEvent(e)) else [])
  {
    hide ToPublicEvent, ToPublicEvents, Between;
    BetweenSnoc(log, e, a, b);
    ToPublicEventsConcat(Between(log, a, b), [e]);
    ToPublicEventsOne(e);
    if !(a < e.sequence <= b) {
      assert Between(log, a, b) + [] == Between(log, a, b);
    }
  }

  // Any prefix of what was sent is exactly what lies up to its last id.
  lemma {:induction false} PrefixEndsAtLastId(log: Log, start: int, cursor: int, f: seq<PublicFrame>)
    requires Sorted(log) && start <= cursor && f <= Publics(log, start, cursor)
    ensures start <= LastId(start, f)
    ensures Publics(log, start, LastId(start, f)) == f && Reaches(log, start, LastId(start, f))
    decreases |log|
  {
    hide ToPublicEvent, ToPublicEvents, Publics, Sorted, Between, Reaches;
    if log == [] {
      NoFrames(log, start, cursor);
      NoFrames(log, start, LastId(start, f));
      ReachesStart(log, start);
    } else {
      var init, e := log[..|log| - 1], log[|log| - 1];
      assert log == init + [e];
      SortedInit(init, e);
      PublicsSnoc(init, e, start, cursor);
      if f <= Publics(init, start, cursor) {
        PrefixEndsAtLastId(init, start, cursor, f);
        PublicsSnoc(init, e, start, LastId(start, f));
        ReachesMore(init, e, start, LastId(start, f));
      } else {
        LastFrameIsNewest(init, e, start, cursor, f);
      }
    }
  }

  lemma ReachesStart(log: Log, start: int)
    ensures Reaches(log, start, start)
  {
  }

  lemma SortedInit(init: Log, e: Event)
    requires Sorted(init + [e])
    ensures Sorted(init) && forall i :: 0 <= i < |init| ==> init[i].sequence < e.sequence
  {
    var log := init + [e];
    forall i | 0 <= i < |init| ensures init[i].sequence < e.sequence {
      assert log[i] == init[i] && log[|init|] == e;
    }
    forall i, j | 0 <= i < j < |init| ensures init[i].sequence < init[j].sequence {
      assert log[i] == init[i] && log[j] == init[j];
    }
  }

  lemma LastFrameIsNewest(init: Log, e: Event, start: int, cursor: int, f: seq<PublicFrame>)
    requires Sorted(init + [e]) && start <= cursor
    requires f <= Publics(init + [e], start, cursor) && !(f <= Publics(init, start, cursor))
    ensures start <= LastId(start, f)
    ensures Publics(init + [e], start, LastId(start, f)) == f && Reaches(init + [e], start, LastId(start, f))
  {
    PublicsSnoc(init, e, start, cursor);
    FrameSequence(e);
    SortedInit(init, e);
    hide ToPublicEvent, ToPublicEvents, Sorted, Between;
    WholePrefix(Publics(init, start, cursor), Kept(ToPublicEvent(e)), f);
    assert LastId(start, f) == e.sequence && (init + [e])[|init|] == e;
    PublicsSnoc(init, e, start, e.sequence);
    BetweenCutOff(init, start, cursor, e.sequence);
  }

  lemma ReachesMore(init: Log, e: Event, start: int, c: int)
    requires Sorted(init + [e]) && Reaches(init, start, c)
    ensures Reaches(init + [e], start, c)
    ensures c == start || c < e.sequence
  {
    if c != start {
      var i :| 0 <= i < |init| && init[i].sequence == c;
      assert (init + [e])[i] == init[i] && (init + [e])[|init|] == e;
    }
  }

  lemma WholePrefix<T>(a: seq<T>, b: seq<T>, f: seq<T>)
    requires |b| <= 1 && f <= a + b && !(f <= a)
    ensures b != [] && f == a + b && f[|f| - 1] == b[0]
  {
    assert |f| == |a| + 1;
  }

  // Cursors at or above every event of the log cut off nothing.
  lemma {:induction false} BetweenCutOff(log: Log, a: int, b: int, c: int)
    requires forall i :: 0 <= i < |log| ==> log[i].sequence <= b && log[i].sequence <= c
    ensures Between(log, a, b) == Between(log, a, c)
    decreases |log|
  {
    if log != [] { BetweenCutOff(log[1..], a, b, c); }
  }

  // Reconnecting with the id of any received frame, or with none received, loses nothing and
  // repeats nothing: what was received before the cut and the second run together are what one
  // run would have sent, to the same cursor and with the same close; and where the second run has
  // sent all there was at some moment, so have the two.
  lemma ReconnectIsSeamless(h: History, m1: nat, m2: nat, start: int, c1: int, c2: int, received: seq<PublicFrame>,
                            first: seq<PublicFrame>, second: seq<PublicFrame>, close1: Close, close2: Close)
    requires ValidHistory(h)
    requires Tailed(h, m1, start, c1, first, close1) && received <= first
    requires Tailed(h, m2, LastId(start, received), c2, second, close2)
    ensures Tailed(h, MaxNat(m1, m2), start, c2, received + second, close2)
    ensures forall n :: m1 <= n && second == AllPublics(h(n).log, LastId(start, received)) ==>
              received + second == AllPublics(h(n).log, start)
  {
    hide Publics, AllPublics, LastId, Sorted, Reaches;
    var last := LastId(start, received);
    forall n | MaxNat(m1, m2) <= n
      ensures Exact(h, n, start, c2, received + second)
      ensures close2 == Drained ==> received + second == AllPublics(h(n).log, start)
    {
      var log := h(n).log;
      assert Exact(h, n, start, c1, first) && Exact(h, n, last, c2, second);
      PrefixEndsAtLastId(log, start, c1, received);
      LastIdFromStart(log, start, last);
      TwoSlices(log, start, last, c2);
    }
    forall n | m1 <= n && second == AllPublics(h(n).log, last)
      ensures received + second == AllPublics(h(n).log, start)
    {
      AllAfterCut(h, m1, n, start, c1, received, first, close1);
    }
  }

  // A second run that begins after the cut has, together with what was received before it, sent
  // everything its polls have read, up to the terminal frame if there is one.
  predicate Seamless(h: History, at: Schedule, start: int, k: nat, close: Close, received: seq<PublicFrame>,
                     second: seq<PublicFrame>) {
    && (close in {Open, Vanished} ==> received + second == if k == 0 then received else SentBefore(h, at, start, k))
    && (close in {Drained, IdleTimeout} ==> received + second == SentBefore(h, at, start, k + 1))
    && (close == Terminated ==>
          && received + second <= SentBefore(h, at, start, k + 1)
          && second != [] && second[|second| - 1].event.eventType == "GameTerminated")
  }

  // A client whose first run, asked to start after `query`, is cut after any number n of frames, and
  // who resumes: with the id of the last frame received, or as before when it received none.
  method CutAndResume(h: History, cfg: Config, query: Option<int>, at1: Schedule, clock1: nat -> int, polls1: nat,
                      n: nat, at2: Schedule, clock2: nat -> int, polls2: nat)
    returns (received: seq<PublicFrame>, second: seq<PublicFrame>, close: Close)
    requires ValidHistory(h) && Forward(at1) && Forward(at2) && at1(2 * polls1) <= at2(0)
    ensures |received| <= n
    ensures query == None ==> exists k: nat :: k <= polls2 && Seamless(h, at2, 0, k, close, received, second)
    ensures query.Some? ==> exists k: nat :: k <= polls2 && Seamless(h, at2, query.value, k, close, received, second)
  {
    hide ValidHistory, Forward, Tailed, ClosedAt, Seamless;
    var blocks, c1, close1 := StreamLiveTail(h, at1, query, cfg, clock1, polls1);
    var first := Frames(blocks);
    received := first[..MinNat(n, |first|)];
    var header := if received == [] then None else Some(received[|received| - 1].event.sequence);
    var blocks2, c2, close2 := StreamLiveTail(h, at2, if header.Some? then header else query, cfg, clock2, polls2);
    second, close := Frames(blocks2), close2;
    ghost var start := if query.Some? then query.value else 0;
    ghost var k :| ClosedAt(h, at2, LastId(start, received), cfg, clock2, polls2, k, close2, second);
    ReconnectMissesNothing(h, at1(2 * polls1), start, c1, received, first, close1, at2, cfg, clock2, polls2, k, second,
                           close2, c2);
  }

  lemma ReconnectMissesNothing(h: History, m1: nat, start: int, c1: int, received: seq<PublicFrame>,
                               first: seq<PublicFrame>, close1: Close, at: Schedule, cfg: Config, clock: nat -> int,
                               polls: nat, k: nat, second: seq<PublicFrame>, close2: Close, c2: int)
    requires ValidHistory(h) && Forward(at) && m1 <= at(0)
    requires Tailed(h, m1, start, c1, first, close1) && received <= first
    requires Tailed(h, at(2 * polls), LastId(start, received), c2, second, close2)
    requires ClosedAt(h, at, LastId(start, received), cfg, clock, polls, k, close2, second)
    ensures k <= polls && Seamless(h, at, start, k, close2, received, second)
  {
    hide ValidHistory, Tailed, AllPublics, LastId, OpenUntil, NoEnd, IdleDue, Forward;
    var last := LastId(start, received);
    forall j: nat
      ensures received + SentBefore(h, at, last, j) == if j == 0 then received else SentBefore(h, at, start, j)
    {
      if j > 0 {
        Later(at, 2 * j - 1);
        AllAfterCut(h, m1, at(2 * j - 1), start, c1, received, first, close1);
      }
    }
    if close2 == Terminated {
      var all := SentBefore(h, at, last, k + 1);
      assert second <= all;
      assert received + all == SentBefore(h, at, start, k + 1);
    }
  }

  // A run ends with a terminal frame iff that is why it closed, and sends nothing after it.
  lemma ClosesOnTerminalFrame(h: History, at: Schedule, start: int, cfg: Config, clock: nat -> int, polls: nat,
                              k: nat, close: Close, frames: seq<PublicFrame>)
    requires ClosedAt(h, at, start, cfg, clock, polls, k, close, frames)
    ensures close == Terminated <==> exists f :: f in frames && f.event.eventType == "GameTerminated"
    ensures forall i :: 0 <= i < |frames| && frames[i].event.eventType == "GameTerminated" ==> i == |frames| - 1
  {
    hide SentBefore, IdleDue;
    if close == Terminated {
      CutHere(frames, SentBefore(h, at, start, k + 1));
      assert frames[|frames| - 1] in frames;
    } else if close in {Open, Vanished} {
      assert k > 0 ==> StaysOpen(h, at, start, cfg, clock, k - 1);
      NothingSentYet(h, at, start, cfg, clock);
    }
  }

  lemma Later(at: Schedule, i: nat)
    requires Forward(at)
    ensures at(0) <= at(i)
  {
  }

  // All there is to send from the last received id on is what is missing of all there is to send.
  lemma AllAfterCut(h: History, m1: nat, n: nat, start: int, c1: int, received: seq<PublicFrame>,
                    first: seq<PublicFrame>, close1: Close)
    requires ValidHistory(h) && m1 <= n && Tailed(h, m1, start, c1, first, close1) && received <= first
    ensures received + AllPublics(h(n).log, LastId(start, received)) == AllPublics(h(n).log, start)
  {
    hide Publics, AllPublics, LastId, Sorted, Reaches;
    var log, last := h(n).log, LastId(start, received);
    assert Exact(h, n, start, c1, first);
    PrefixEndsAtLastId(log, start, c1, received);
    ReachesStart(log, last);
    TwoSlices(log, start, last, last);
  }

  lemma LastIdFromStart(log: Log, start: int, last: int)
    requires Reaches(log, start, last)
    ensures last == start || exists i :: 0 <= i < |log| && log[i].sequence == last
  {
  }

  lemma TwoSlices(log: Log, start: int, last: int, c: int)
    requires Sorted(log) && start <= last <= c && Reaches(log, start, last) && Reaches(log, last, c)
    ensures Publics(log, start, last) + Publics(log, last, c) == Publics(log, start, c)
    ensures Publics(log, start, last) + AllPublics(log, last) == AllPublics(log, start)
    ensures Reaches(log, start, c)
  {
    BetweenSplits(log, start, last, c);
    ToPublicEventsConcat(Between(log, start, last), Between(log, last, c));
    AboveSplits(log, start, last);
    ToPublicEventsConcat(Between(log, start, last), Above(log, last));
  }

  // A tail carries every public event of the log exactly when no public event lies at or below its
  // start: the comparison is strict.
  lemma {:induction false} TailCompleteIff(log: Log, start: int)
    requires Sorted(log)
    ensures |AllPublics(log, start)| <= |ToPublicEvents(log)|
    ensures AllPublics(log, start) == ToPublicEvents(log) <==>
            forall i :: 0 <= i < |log| && log[i].sequence <= start ==> !Public(log[i])
    decreases |log|
  {
    hide ToPublicEvent, ToPublicEvents, Above, Public, Sorted;
    if log == [] {
      NothingLogged(log, start);
    } else {
      var e, rest := log[0], log[1..];
      assert log == [e] + rest;
      SortedTail(log);
      TailCompleteIff(rest, start);
      FirstCounts(e, rest);
      if e.sequence <= start {
        SkipsFirst(log, start);
      } else {
        assert forall i :: 0 <= i < |log| ==> start < log[i].sequence by {
          assert forall i :: 1 <= i < |log| ==> log[i] == rest[i - 1];
        }
        AboveKeepsAll(log, start);
      }
      assert forall i :: 1 <= i < |log| ==> log[i] == rest[i - 1];
    }
  }

  // A fresh tail starts at 0: it is complete exactly when no public event sits at sequence 0.  One
  // that starts below 0 is always complete.
  lemma FreshTailCompleteIff(log: Log, start: int)
    requires Sorted(log)
    ensures AllPublics(log, 0) == ToPublicEvents(log) <==>
            forall i :: 0 <= i < |log| && log[i].sequence == 0 ==> !Public(log[i])
    ensures start < 0 ==> AllPublics(log, start) == ToPublicEvents(log)
  {
    hide Public, AllPublics, ToPublicEvents;
    TailCompleteIff(log, 0);
    TailCompleteIff(log, start);
  }

  lemma NothingLogged(log: Log, start: int)
    requires log == []
    ensures AllPublics(log, start) == ToPublicEvents(log)
  {
  }

  lemma FirstCounts(e: Event, rest: Log)
    ensures ToPublicEvents([e] + rest) == Kept(ToPublicEvent(e)) + ToPublicEvents(rest)
    ensures |Kept(ToPublicEvent(e))| == if Public(e) then 1 else 0
  {
    ToPublicEventsConcat([e], rest);
    ToPublicEventsOne(e);
    PublicFrameIsClean(e);
  }

  lemma SkipsFirst(log: Log, start: int)
    requires log != [] && log[0].sequence <= start
    ensures AllPublics(log, start) == AllPublics(log[1..], start)
  {
    assert Above(log, start) == Above(log[1..], start);
  }
}
